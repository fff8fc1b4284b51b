/** The analysis job (`app/worker/tasks.py`): crawl the site, group its URLs by first path segment and sample large
  * groups, route each page to the rule-based or the LLM parser by its confidence score, hand everything to the final
  * analysis, and record the outcome on the job. Fetching, the model, `json.loads`, `random.sample` and the clock are
  * parameters. */
module Tasks {

  import opened Wrappers
  import opened Text
  import opened Json
  import opened UrlParse
  import opened Crawler
  import opened ConfidenceScorer
  import opened Parser
  import opened Analyzer
  import opened Settings
  import opened Jobs

  // The job's settings.
  const ExcludedSubdomains: seq<string> := ["docs", "api", "status", "files", "developer", "support"]
  const CollectionSampleSize: nat := 3
  const CollectionThreshold: nat := 5
  const ConfidenceThreshold: int := 60

  /** The message of the `ValueError` that `urlparse` raises for a netloc with an unmatched bracket. */
  const InvalidUrl := "Invalid IPv6 URL"

  /** `get_clean_root_url`: the scheme and the netloc with every "www." removed; `None` where `urlparse` raises. */
  function GetCleanRootUrl(url: string): (r: Option<string>)
    ensures r.Some? <==> Parse(url).Some?
  {
    match Parse(url)
    case None => None
    case Some(u) => Some(Unparse(Url(u.scheme, RemoveAll(u.netloc, "www."), "", "", "", "")))
  }

  /** The root URL is "scheme:" followed by "//" and the cleaned host (the "//" also when the host is empty but the
    * scheme is one that has a netloc); path, parameters, query and fragment are gone, and a host without "www."
    * is kept as it is. */
  lemma GetCleanRootUrlShape(url: string)
    ensures GetCleanRootUrl(url).Some? <==> Parse(url).Some?
    ensures Parse(url).Some? ==>
              var u := Parse(url).value;
              var host := RemoveAll(u.netloc, "www.");
              && GetCleanRootUrl(url).value ==
                   (if u.scheme != [] then u.scheme + ":" else "")
                   + (if host != [] || (u.scheme != [] && u.scheme in UsesNetloc) then "//" + host else "")
              && NoQueryMarks(GetCleanRootUrl(url).value)
              && (host == u.netloc <==> !Contains(u.netloc, "www."))
  {
    if Parse(url).Some? {
      var u := Parse(url).value;
      var host := RemoveAll(u.netloc, "www.");
      RemoveAllUnchanged(u.netloc, "www.");
      RemoveAllKeeps(u.netloc, "www.");
      assert NoQueryMarks(host);
      UnparseRoot(u.scheme, host);
    }
  }

  /** A URL of scheme and host alone is rebuilt as "scheme:" and "//host". */
  lemma UnparseRoot(scheme: string, host: string)
    requires NoQueryMarks(scheme) && NoQueryMarks(host)
    ensures var r := Unparse(Url(scheme, host, "", "", "", ""));
      && r == (if scheme != [] then scheme + ":" else "")
              + (if host != [] || (scheme != [] && scheme in UsesNetloc) then "//" + host else "")
      && NoQueryMarks(r)
  {
    assert !StartsWith("", "//");
    UnparseWithoutQuery(Url(scheme, host, "", "", "", ""));
  }

  /** Removal only drops characters. */
  lemma {:induction false} RemoveAllKeeps(s: string, pat: string)
    requires pat != []
    ensures forall c :: c in RemoveAll(s, pat) ==> c in s
    decreases |s|
  {
    if |s| >= |pat| {
      if s[..|pat|] == pat {
        RemoveAllKeeps(s[|pat|..], pat);
      } else {
        RemoveAllKeeps(s[1..], pat);
      }
    }
  }

  /** The pattern key of a path: "/" + its first segment + "/", or "/" when it has no '/'. */
  function PathPattern(path: string): (r: string)
    ensures 1 <= |r| && r[0] == '/' && r[|r| - 1] == '/'
    ensures forall i :: 0 < i < |r| - 1 ==> r[i] != '/'
  {
    var parts := Split(path, '/');
    if |parts| > 1 then "/" + parts[1] + "/" else "/"
  }

  /** A text without the separator does not split. */
  lemma {:induction false} SplitWhole(a: string, sep: char)
    requires sep !in a
    ensures Split(a, sep) == [a]
  {
    if a != [] {
      SplitWhole(a[1..], sep);
      assert [a[0]] + a[1..] == a;
    }
  }

  /** The text up to the first separator is the first part. */
  lemma {:induction false} SplitFirst(a: string, b: string, sep: char)
    requires sep !in a
    ensures Split(a + [sep] + b, sep) == [a] + Split(b, sep)
  {
    if a == [] {
      assert a + [sep] + b == [sep] + b;
      assert ([sep] + b)[1..] == b;
    } else {
      var s := a + [sep] + b;
      SplitFirst(a[1..], b, sep);
      assert s[1..] == a[1..] + [sep] + b;
      assert [a[0]] + a[1..] == a;
    }
  }

  /** A path with no '/' has the key "/"; a path "/seg" or "/seg/..." has the key "/seg/". */
  lemma PathPatternSpec(path: string, seg: string, rest: string)
    ensures '/' !in path ==> PathPattern(path) == "/"
    ensures '/' !in seg && (rest == [] || rest[0] == '/') ==> PathPattern("/" + seg + rest) == "/" + seg + "/"
  {
    SplitMany(path, '/');
    if '/' !in seg && (rest == [] || rest[0] == '/') {
      var p := "/" + seg + rest;
      assert p == [] + ['/'] + (seg + rest);
      SplitFirst([], seg + rest, '/');
      if rest == [] {
        assert seg + rest == seg;
        SplitWhole(seg, '/');
      } else {
        assert seg + rest == seg + ['/'] + rest[1..];
        SplitFirst(seg, rest[1..], '/');
      }
    }
  }

  /** The pattern key of a URL; `None` where `urlparse` raises. */
  function PatternKey(url: string): Option<string>
  {
    match Parse(url)
    case None => None
    case Some(u) => Some(PathPattern(u.path))
  }

  /** `path_patterns`: the keys in the order they first occurred (a `dict` keeps insertion order) and each key's URLs. */
  datatype Grouping = Grouping(keys: seq<string>, groups: map<string, seq<string>>)

  /** `path_patterns[key].append(url)` on a `defaultdict(list)`. */
  function AddToGroup(g: Grouping, key: string, url: string): Grouping
  {
    if key in g.groups then Grouping(g.keys, g.groups[key := g.groups[key] + [url]])
    else Grouping(g.keys + [key], g.groups[key := [url]])
  }

  /** The grouping of `urls` in order under the key function `keyOf`; it fails at the first URL without a key. */
  function Grouped(keyOf: string -> Option<string>, urls: seq<string>): (r: Result<Grouping>)
    ensures r.Ok? ==> NoDupKeys(r.value.keys) && forall k :: k in r.value.keys <==> k in r.value.groups
    ensures r.Err? ==> r.error == InvalidUrl
  {
    if urls == [] then Ok(Grouping([], map[]))
    else
      match Grouped(keyOf, urls[..|urls| - 1])
      case Err(e) => Err(e)
      case Ok(g) =>
        match keyOf(urls[|urls| - 1])
        case None => Err(InvalidUrl)
        case Some(k) => Ok(AddToGroup(g, k, urls[|urls| - 1]))
  }

  /** The URLs of `urls` whose key is `key`, in order. */
  function Members(keyOf: string -> Option<string>, urls: seq<string>, key: string): seq<string>
  {
    if urls == [] then []
    else Members(keyOf, urls[..|urls| - 1], key) + (if keyOf(urls[|urls| - 1]) == Some(key) then [urls[|urls| - 1]] else [])
  }

  predicate NoDupKeys(keys: seq<string>)
  {
    forall i, j :: 0 <= i < j < |keys| ==> keys[i] != keys[j]
  }

  /** `g` is the grouping of `urls`: its keys are distinct, they are exactly the keys that occur, and each key's
    * group is the URLs with that key, in crawl order. */
  ghost predicate GroupingOf(keyOf: string -> Option<string>, urls: seq<string>, g: Grouping)
  {
    && NoDupKeys(g.keys)
    && (forall k :: k in g.groups <==> k in g.keys)
    && (forall k :: k in g.groups <==> exists i :: 0 <= i < |urls| && keyOf(urls[i]) == Some(k))
    && (forall k :: k in g.groups ==> g.groups[k] == Members(keyOf, urls, k))
  }

  /** Grouping succeeds exactly when every URL parses, and then it is the grouping of the URLs, with the keys in
    * first-seen order. */
  lemma GroupedSpec(keyOf: string -> Option<string>, urls: seq<string>)
    ensures Grouped(keyOf, urls).Ok? <==> forall i :: 0 <= i < |urls| ==> keyOf(urls[i]).Some?
    ensures Grouped(keyOf, urls).Ok? ==> GroupingOf(keyOf, urls, Grouped(keyOf, urls).value)
    ensures Grouped(keyOf, urls).Ok? ==> FirstSeenOrder(keyOf, urls, Grouped(keyOf, urls).value.keys)
  {
    GroupedSucceeds(keyOf, urls);
    if Grouped(keyOf, urls).Ok? {
      GroupedExact(keyOf, urls);
      GroupedKeyOrder(keyOf, urls);
    }
  }

  /** Grouping succeeds exactly when every URL has a key. */
  lemma {:induction false} GroupedSucceeds(keyOf: string -> Option<string>, urls: seq<string>)
    ensures Grouped(keyOf, urls).Ok? <==> forall i :: 0 <= i < |urls| ==> keyOf(urls[i]).Some?
  {
    if urls != [] {
      var init := urls[..|urls| - 1];
      GroupedSucceeds(keyOf, init);
      assert forall i :: 0 <= i < |init| ==> init[i] == urls[i];
      if Grouped(keyOf, init).Err? {
        var i :| 0 <= i < |init| && keyOf(init[i]).None?;
        assert keyOf(urls[i]).None?;
      }
    }
  }

  /** A successful grouping is the grouping of the URLs. */
  lemma {:induction false} GroupedExact(keyOf: string -> Option<string>, urls: seq<string>)
    requires Grouped(keyOf, urls).Ok?
    ensures GroupingOf(keyOf, urls, Grouped(keyOf, urls).value)
  {
    if urls != [] {
      var init, last := urls[..|urls| - 1], urls[|urls| - 1];
      GroupedExact(keyOf, init);
      assert urls == init + [last];
      AddToGroupStep(keyOf, init, last, Grouped(keyOf, init).value);
    }
  }

  /** The index of the first URL whose key is `key`, or the length when there is none. */
  function First(keyOf: string -> Option<string>, urls: seq<string>, key: string): (i: nat)
    ensures i <= |urls|
    ensures i < |urls| ==> keyOf(urls[i]) == Some(key)
    ensures forall j :: 0 <= j < i ==> keyOf(urls[j]) != Some(key)
  {
    if urls == [] then 0 else if keyOf(urls[0]) == Some(key) then 0 else 1 + First(keyOf, urls[1..], key)
  }

  /** The keys come in the order in which their first URL occurs. */
  ghost predicate FirstSeenOrder(keyOf: string -> Option<string>, urls: seq<string>, keys: seq<string>)
  {
    forall i, j :: 0 <= i < j < |keys| ==> First(keyOf, urls, keys[i]) < First(keyOf, urls, keys[j])
  }

  /** A URL added at the end leaves the first occurrence of a key the earlier URLs have, and is the first
    * occurrence of a key they do not have. */
  lemma FirstAppend(keyOf: string -> Option<string>, init: seq<string>, last: string, key: string)
    ensures (exists i :: 0 <= i < |init| && keyOf(init[i]) == Some(key)) ==>
              First(keyOf, init + [last], key) == First(keyOf, init, key) < |init|
    ensures (forall i :: 0 <= i < |init| ==> keyOf(init[i]) != Some(key)) && keyOf(last) == Some(key) ==>
              First(keyOf, init + [last], key) == |init|
  {
    var urls := init + [last];
    var f, f' := First(keyOf, init, key), First(keyOf, urls, key);
    assert forall j :: 0 <= j < |init| ==> urls[j] == init[j];
    if exists i :: 0 <= i < |init| && keyOf(init[i]) == Some(key) {
      assert f < |init|;
      assert keyOf(urls[f]) == Some(key);
      assert f' == f;
    }
    if (forall i :: 0 <= i < |init| ==> keyOf(init[i]) != Some(key)) && keyOf(last) == Some(key) {
      assert keyOf(urls[|init|]) == Some(key);
    }
  }

  /** The keys of a successful grouping come in the order in which they first occur among the URLs, which is
    * the insertion order the `dict` keeps. */
  lemma {:induction false} GroupedKeyOrder(keyOf: string -> Option<string>, urls: seq<string>)
    requires Grouped(keyOf, urls).Ok?
    ensures FirstSeenOrder(keyOf, urls, Grouped(keyOf, urls).value.keys)
  {
    if urls != [] {
      var init, last := urls[..|urls| - 1], urls[|urls| - 1];
      assert urls == init + [last];
      GroupedKeyOrder(keyOf, init);
      GroupedExact(keyOf, init);
      KeyOrderStep(keyOf, init, last, Grouped(keyOf, init).value);
    }
  }

  /** Adding a URL keeps the keys in first-seen order. */
  lemma KeyOrderStep(keyOf: string -> Option<string>, init: seq<string>, last: string, g: Grouping)
    requires GroupingOf(keyOf, init, g) && FirstSeenOrder(keyOf, init, g.keys) && keyOf(last).Some?
    ensures FirstSeenOrder(keyOf, init + [last], AddToGroup(g, keyOf(last).value, last).keys)
  {
    var urls := init + [last];
    var k := keyOf(last).value;
    var keys := AddToGroup(g, k, last).keys;
    forall key | key in g.keys
      ensures First(keyOf, urls, key) == First(keyOf, init, key) < |init|
    {
      FirstAppend(keyOf, init, last, key);
    }
    if k !in g.groups {
      FirstAppend(keyOf, init, last, k);
      forall i, j | 0 <= i < j < |keys|
        ensures First(keyOf, urls, keys[i]) < First(keyOf, urls, keys[j])
      {
        assert keys[i] in g.keys;
        if j < |g.keys| {
          assert keys[j] in g.keys;
        }
      }
    } else {
      forall i, j | 0 <= i < j < |keys|
        ensures First(keyOf, urls, keys[i]) < First(keyOf, urls, keys[j])
      {
        assert keys[i] in g.keys && keys[j] in g.keys;
      }
    }
  }

  /** Appending a URL to its key's group keeps the grouping exact. */
  lemma AddToGroupStep(keyOf: string -> Option<string>, init: seq<string>, last: string, g: Grouping)
    requires GroupingOf(keyOf, init, g) && keyOf(last).Some?
    ensures GroupingOf(keyOf, init + [last], AddToGroup(g, keyOf(last).value, last))
  {
    var g' := AddToGroup(g, keyOf(last).value, last);
    assert NoDupKeys(g'.keys);
    AddToGroupMembers(keyOf, init, last, g);
    AddToGroupDomain(keyOf, init, last, g);
  }

  /** After the step every group is still exactly its key's members. */
  lemma AddToGroupMembers(keyOf: string -> Option<string>, init: seq<string>, last: string, g: Grouping)
    requires GroupingOf(keyOf, init, g) && keyOf(last).Some?
    ensures var g' := AddToGroup(g, keyOf(last).value, last);
              forall k' :: k' in g'.groups ==> g'.groups[k'] == Members(keyOf, init + [last], k')
  {
    var urls := init + [last];
    var k := keyOf(last).value;
    var g' := AddToGroup(g, k, last);
    assert init == urls[..|urls| - 1];
    forall k' | k' in g'.groups ensures g'.groups[k'] == Members(keyOf, urls, k') {
      if k' == k && k !in g.groups {
        MembersAbsent(keyOf, init, k);
      }
    }
  }

  /** After the step the keys are exactly the keys some URL has. */
  lemma AddToGroupDomain(keyOf: string -> Option<string>, init: seq<string>, last: string, g: Grouping)
    requires GroupingOf(keyOf, init, g) && keyOf(last).Some?
    ensures var g' := AddToGroup(g, keyOf(last).value, last);
              forall k' :: k' in g'.groups <==> exists i :: 0 <= i < |init + [last]| && keyOf((init + [last])[i]) == Some(k')
  {
    var urls := init + [last];
    var k := keyOf(last).value;
    var g' := AddToGroup(g, k, last);
    forall k' | k' in g'.groups ensures exists i :: 0 <= i < |urls| && keyOf(urls[i]) == Some(k') {
      if k' != k {
        var i :| 0 <= i < |init| && keyOf(init[i]) == Some(k');
        assert keyOf(urls[i]) == Some(k');
      } else {
        assert keyOf(urls[|urls| - 1]) == Some(k');
      }
    }
    forall k' | exists i :: 0 <= i < |urls| && keyOf(urls[i]) == Some(k') ensures k' in g'.groups {
      var i :| 0 <= i < |urls| && keyOf(urls[i]) == Some(k');
      if i < |init| {
        assert keyOf(init[i]) == Some(k');
      }
    }
  }

  /** A key that no URL has has no members. */
  lemma {:induction false} MembersAbsent(keyOf: string -> Option<string>, urls: seq<string>, key: string)
    requires forall i :: 0 <= i < |urls| ==> keyOf(urls[i]) != Some(key)
    ensures Members(keyOf, urls, key) == []
  {
    if urls != [] {
      var init := urls[..|urls| - 1];
      assert forall i :: 0 <= i < |init| ==> init[i] == urls[i];
      MembersAbsent(keyOf, init, key);
    }
  }

  /** The members of a key are the URLs with that key; each crawled URL therefore lies in exactly one group. */
  lemma {:induction false} MembersSpec(keyOf: string -> Option<string>, urls: seq<string>, key: string)
    ensures forall u :: u in Members(keyOf, urls, key) <==> u in urls && keyOf(u) == Some(key)
    ensures |Members(keyOf, urls, key)| <= |urls|
    ensures NoDup(urls) ==> NoDup(Members(keyOf, urls, key))
  {
    if urls != [] {
      var init, last := urls[..|urls| - 1], urls[|urls| - 1];
      MembersSpec(keyOf, init, key);
      assert urls == init + [last];
      if NoDup(urls) {
        assert NoDup(init) by {
          forall i, j | 0 <= i < j < |init| ensures init[i] != init[j] {
            assert init[i] == urls[i] && init[j] == urls[j];
          }
        }
        assert last !in init;
        if keyOf(last) == Some(key) {
          NoDupAppend(Members(keyOf, init, key), [last]);
        }
      }
    }
  }

  /** `for url in urls_to_process: path_patterns[pattern_key].append(url)`; `Err` is the `ValueError` of a URL that
    * `urlparse` rejects. */
  method GroupByPattern(urls: seq<string>) returns (r: Result<Grouping>)
    ensures r == Grouped(PatternKey, urls)
  {
    var g := Grouping([], map[]);
    for i := 0 to |urls|
      invariant Grouped(PatternKey, urls[..i]) == Ok(g)
    {
      assert urls[..i + 1][..i] == urls[..i];
      var key := PatternKey(urls[i]);
      if key.None? {
        GroupedPrefixFails(PatternKey, urls, i + 1);
        return Err(InvalidUrl);
      }
      g := AddToGroup(g, key.value, urls[i]);
    }
    assert urls[..|urls|] == urls;
    r := Ok(g);
  }

  /** Once a prefix fails to group, the whole list fails the same way. */
  lemma {:induction false} GroupedPrefixFails(keyOf: string -> Option<string>, urls: seq<string>, n: nat)
    requires n <= |urls| && Grouped(keyOf, urls[..n]).Err?
    ensures Grouped(keyOf, urls) == Grouped(keyOf, urls[..n])
    decreases |urls| - n
  {
    if n < |urls| {
      assert urls[..n + 1][..n] == urls[..n];
      assert Grouped(keyOf, urls[..n + 1]) == Grouped(keyOf, urls[..n]);
      GroupedPrefixFails(keyOf, urls, n + 1);
    } else {
      assert urls[..n] == urls;
    }
  }

  /** The groups' URLs one group after the other, in key order. */
  function Flatten(keys: seq<string>, groups: map<string, seq<string>>): seq<string>
    requires forall k :: k in keys ==> k in groups
  {
    if keys == [] then [] else Flatten(keys[..|keys| - 1], groups) + groups[keys[|keys| - 1]]
  }

  /** Flattening reads only the groups of the listed keys. */
  lemma {:induction false} FlattenOther(keys: seq<string>, groups: map<string, seq<string>>, k: string, v: seq<string>)
    requires forall k' :: k' in keys ==> k' in groups
    requires k !in keys
    ensures Flatten(keys, groups[k := v]) == Flatten(keys, groups)
  {
    if keys != [] {
      FlattenOther(keys[..|keys| - 1], groups, k, v);
    }
  }

  /** Appending a URL to the group of a listed key adds it to the flattened URLs. */
  lemma {:induction false} FlattenExtend(keys: seq<string>, groups: map<string, seq<string>>, k: string, u: string)
    requires forall k' :: k' in keys ==> k' in groups
    requires NoDupKeys(keys) && k in keys
    ensures multiset(Flatten(keys, groups[k := groups[k] + [u]])) == multiset(Flatten(keys, groups)) + multiset{u}
  {
    var init, last := keys[..|keys| - 1], keys[|keys| - 1];
    var groups' := groups[k := groups[k] + [u]];
    if last == k {
      assert k !in init;
      FlattenOther(init, groups, k, groups[k] + [u]);
    } else {
      assert k in init;
      FlattenExtend(init, groups, k, u);
    }
  }

  /** The groups together hold the crawled URLs, each as often as it was crawled. */
  lemma {:induction false} GroupedPermutation(keyOf: string -> Option<string>, urls: seq<string>)
    requires Grouped(keyOf, urls).Ok?
    ensures var g := Grouped(keyOf, urls).value;
              multiset(Flatten(g.keys, g.groups)) == multiset(urls)
  {
    if urls != [] {
      var init, last := urls[..|urls| - 1], urls[|urls| - 1];
      assert urls == init + [last];
      GroupedPermutation(keyOf, init);
      var g := Grouped(keyOf, init).value;
      var k := keyOf(last).value;
      if k in g.groups {
        FlattenExtend(g.keys, g.groups, k, last);
      } else {
        FlattenOther(g.keys, g.groups, k, [last]);
      }
    }
  }

  function Min(a: int, b: int): int
  {
    if a < b then a else b
  }

  /** What `random.sample(urls, min(COLLECTION_SAMPLE_SIZE, len(urls)))` may return: that many URLs drawn from
    * distinct positions of the group, in any order. The job takes the draw as a function `draw` from a group to
    * its sample; any function whose samples satisfy this predicate is a possible run. */
  predicate IsSample(sample: seq<string>, group: seq<string>)
  {
    |sample| == Min(CollectionSampleSize, |group|) && multiset(sample) <= multiset(group)
  }

  /** The members of a group that were not drawn, in group order. */
  function Unsampled(group: seq<string>, sample: seq<string>): seq<string>
  {
    if group == [] then []
    else
      var last := group[|group| - 1];
      Unsampled(group[..|group| - 1], sample) + (if last !in sample then [last] else [])
  }

  /** An entry of `excluded_pages`. */
  datatype Exclusion = Exclusion(url: string, category: string, reason: string)

  function ExclusionJson(e: Exclusion): Json
  {
    JObj(map["url" := JStr(e.url), "category" := JStr(e.category), "reason" := JStr(e.reason)])
  }

  function ExclusionUrls(es: seq<Exclusion>): seq<string>
  {
    if es == [] then [] else ExclusionUrls(es[..|es| - 1]) + [es[|es| - 1].url]
  }

  /** The decimal digits of `n`, as `str(n)` writes them. */
  function NatToString(n: nat): string
  {
    if n < 10 then ["0123456789"[n]] else NatToString(n / 10) + ["0123456789"[n % 10]]
  }

  /** The value of a string of decimal digits. */
  function DigitsValue(s: string): int
  {
    if s == [] then 0 else 10 * DigitsValue(s[..|s| - 1]) + (s[|s| - 1] as int - '0' as int)
  }

  /** `str(n)` is made of digits, has no leading zero, and reads back as `n`. */
  lemma {:induction false} NatToStringValue(n: nat)
    ensures var s := NatToString(n);
              && s != [] && (forall i :: 0 <= i < |s| ==> '0' <= s[i] <= '9')
              && (|s| > 1 ==> s[0] != '0')
              && DigitsValue(s) == n
  {
    var digits := "0123456789";
    assert forall d :: 0 <= d < 10 ==> digits[d] as int - '0' as int == d;
    if n >= 10 {
      NatToStringValue(n / 10);
      var s := NatToString(n);
      assert s[..|s| - 1] == NatToString(n / 10);
    }
  }

  /** The entry for a group member that was not drawn. */
  function RedundantEntry(url: string, size: nat, pattern: string): Exclusion
  {
    Exclusion(url, "Redundant", "Teil einer Sammlung von " + NatToString(size) + " mit Muster '" + pattern + "'")
  }

  /** The entries for the members `urls` of a group of `size` URLs that were not drawn into `sample`. */
  function RedundantEntries(urls: seq<string>, sample: seq<string>, size: nat, pattern: string): seq<Exclusion>
  {
    if urls == [] then []
    else
      var last := urls[|urls| - 1];
      RedundantEntries(urls[..|urls| - 1], sample, size, pattern)
      + (if last !in sample then [RedundantEntry(last, size, pattern)] else [])
  }

  /** A group larger than the collection threshold is a collection, and only a sample of it is analysed. */
  predicate IsCollection(group: seq<string>)
  {
    |group| > CollectionThreshold
  }

  /** `samples[j]` is what the sampling kept of the group of `keys[j]`: a sample of a collection, any other group
    * whole. */
  ghost predicate Sampling(keys: seq<string>, groups: map<string, seq<string>>, samples: seq<seq<string>>)
  {
    && |samples| == |keys|
    && (forall k :: k in keys ==> k in groups)
    && (forall j :: 0 <= j < |keys| ==>
          if IsCollection(groups[keys[j]]) then IsSample(samples[j], groups[keys[j]]) else samples[j] == groups[keys[j]])
  }

  function Concat(ss: seq<seq<string>>): seq<string>
  {
    if ss == [] then [] else Concat(ss[..|ss| - 1]) + ss[|ss| - 1]
  }

  /** The `Redundant` entries of all collections, in key order. */
  function Redundant(keys: seq<string>, groups: map<string, seq<string>>, samples: seq<seq<string>>): seq<Exclusion>
    requires |samples| == |keys| && forall k :: k in keys ==> k in groups
  {
    if keys == [] then []
    else
      var n := |keys| - 1;
      var group := groups[keys[n]];
      Redundant(keys[..n], groups, samples[..n])
      + (if IsCollection(group) then RedundantEntries(group, samples[n], |group|, keys[n]) else [])
  }

  /** The redundant entries name the undrawn members, in group order. */
  lemma {:induction false} RedundantEntriesUrls(urls: seq<string>, sample: seq<string>, size: nat, pattern: string)
    ensures ExclusionUrls(RedundantEntries(urls, sample, size, pattern)) == Unsampled(urls, sample)
    ensures forall e :: e in RedundantEntries(urls, sample, size, pattern) ==> e == RedundantEntry(e.url, size, pattern)
  {
    if urls != [] {
      RedundantEntriesUrls(urls[..|urls| - 1], sample, size, pattern);
      var es := RedundantEntries(urls[..|urls| - 1], sample, size, pattern);
      var last := urls[|urls| - 1];
      if last !in sample {
        var e := RedundantEntry(last, size, pattern);
        ExclusionUrlsAppend(es, [e]);
        assert ExclusionUrls([e]) == ExclusionUrls([e][..0]) + [e.url];
      } else {
        assert es + [] == es;
      }
    }
  }

  /** With no URL repeated, each one occurs once. */
  lemma {:induction false} NoDupCount(s: seq<string>, y: string)
    requires NoDup(s)
    ensures multiset(s)[y] == if y in s then 1 else 0
  {
    if s != [] {
      var init := s[..|s| - 1];
      assert s == init + [s[|s| - 1]];
      assert NoDup(init) by {
        forall i, j | 0 <= i < j < |init| ensures init[i] != init[j] {
          assert init[i] == s[i] && init[j] == s[j];
        }
      }
      NoDupCount(init, y);
    }
  }

  /** The undrawn members are the members not in the sample, each once. */
  lemma {:induction false} UnsampledCount(group: seq<string>, sample: seq<string>, y: string)
    requires NoDup(group)
    ensures multiset(Unsampled(group, sample))[y] == if y in group && y !in sample then 1 else 0
  {
    if group != [] {
      var init, last := group[..|group| - 1], group[|group| - 1];
      assert group == init + [last];
      assert NoDup(init) by {
        forall i, j | 0 <= i < j < |init| ensures init[i] != init[j] {
          assert init[i] == group[i] && init[j] == group[j];
        }
      }
      assert last !in init;
      UnsampledCount(init, sample, y);
    }
  }

  /** Drawn and undrawn members together are the group. */
  lemma SampleSplit(group: seq<string>, sample: seq<string>)
    requires NoDup(group) && multiset(sample) <= multiset(group)
    ensures multiset(sample) + multiset(Unsampled(group, sample)) == multiset(group)
  {
    forall y ensures (multiset(sample) + multiset(Unsampled(group, sample)))[y] == multiset(group)[y] {
      NoDupCount(group, y);
      UnsampledCount(group, sample, y);
      assert multiset(sample)[y] <= multiset(group)[y];
    }
  }

  /** A collection of n URLs contributes min(3, n) drawn URLs and n - min(3, n) redundant ones. */
  lemma CollectionSplit(group: seq<string>, sample: seq<string>)
    requires NoDup(group) && IsCollection(group) && IsSample(sample, group)
    ensures |sample| == CollectionSampleSize
    ensures |Unsampled(group, sample)| == |group| - CollectionSampleSize
  {
    SampleSplit(group, sample);
    assert |multiset(sample) + multiset(Unsampled(group, sample))| == |multiset(group)|;
  }

  /** The sampling of all but the last group is a sampling of those groups. */
  lemma SamplingPrefix(keys: seq<string>, groups: map<string, seq<string>>, samples: seq<seq<string>>)
    requires Sampling(keys, groups, samples) && keys != []
    ensures Sampling(keys[..|keys| - 1], groups, samples[..|keys| - 1])
  {
    var n := |keys| - 1;
    forall j | 0 <= j < n ensures keys[..n][j] == keys[j] && samples[..n][j] == samples[j] { }
  }

  /** The last group contributes its sample to the drawn URLs and its undrawn members, `own`, to the redundant
    * entries; the two make up the group. */
  lemma LastGroupSplit(keys: seq<string>, groups: map<string, seq<string>>, samples: seq<seq<string>>)
    returns (own: seq<string>)
    requires Sampling(keys, groups, samples) && keys != []
    requires NoDup(groups[keys[|keys| - 1]])
    ensures var n := |keys| - 1;
      && ExclusionUrls(Redundant(keys, groups, samples)) == ExclusionUrls(Redundant(keys[..n], groups, samples[..n])) + own
      && multiset(samples[n]) + multiset(own) == multiset(groups[keys[n]])
  {
    var n := |keys| - 1;
    var group, sample := groups[keys[n]], samples[n];
    var earlier := Redundant(keys[..n], groups, samples[..n]);
    if IsCollection(group) {
      assert IsSample(sample, group);
      own := Unsampled(group, sample);
      var entries := RedundantEntries(group, sample, |group|, keys[n]);
      assert Redundant(keys, groups, samples) == earlier + entries;
      ExclusionUrlsAppend(earlier, entries);
      RedundantEntriesUrls(group, sample, |group|, keys[n]);
      SampleSplit(group, sample);
    } else {
      assert sample == group;
      own := [];
      assert Redundant(keys, groups, samples) == earlier + [] == earlier;
      assert ExclusionUrls(earlier) + own == ExclusionUrls(earlier);
    }
  }

  /** Drawn URLs and redundant entries together account for every grouped URL, each exactly once. */
  lemma {:induction false} SamplingPartition(keys: seq<string>, groups: map<string, seq<string>>, samples: seq<seq<string>>)
    requires Sampling(keys, groups, samples)
    requires forall k :: k in keys ==> NoDup(groups[k])
    ensures multiset(Concat(samples)) + multiset(ExclusionUrls(Redundant(keys, groups, samples)))
            == multiset(Flatten(keys, groups))
  {
    if keys != [] {
      var n := |keys| - 1;
      SamplingPrefix(keys, groups, samples);
      SamplingPartition(keys[..n], groups, samples[..n]);
      var own := LastGroupSplit(keys, groups, samples);
      assert Concat(samples) == Concat(samples[..n]) + samples[n];
      assert Flatten(keys, groups) == Flatten(keys[..n], groups) + groups[keys[n]];
      MultisetCombine(Concat(samples[..n]), ExclusionUrls(Redundant(keys[..n], groups, samples[..n])),
                      Flatten(keys[..n], groups), samples[n], own, groups[keys[n]]);
    }
  }

  lemma MultisetCombine(a: seq<string>, b: seq<string>, c: seq<string>, x: seq<string>, y: seq<string>, z: seq<string>)
    requires multiset(a) + multiset(b) == multiset(c)
    requires multiset(x) + multiset(y) == multiset(z)
    ensures multiset(a + x) + multiset(b + y) == multiset(c + z)
  {
  }

  lemma {:induction false} ExclusionUrlsAppend(a: seq<Exclusion>, b: seq<Exclusion>)
    ensures ExclusionUrls(a + b) == ExclusionUrls(a) + ExclusionUrls(b)
  {
    if b != [] {
      assert (a + b)[..|a + b| - 1] == a + b[..|b| - 1];
      ExclusionUrlsAppend(a, b[..|b| - 1]);
    } else {
      assert a + b == a;
    }
  }

  /** What the sampling keeps of a group. */
  function SampleOf(draw: seq<string> -> seq<string>, group: seq<string>): seq<string>
  {
    if IsCollection(group) then draw(group) else group
  }

  /** What the sampling keeps of each group, in key order. */
  function Samples(draw: seq<string> -> seq<string>, keys: seq<string>, groups: map<string, seq<string>>): (ss: seq<seq<string>>)
    requires forall k :: k in keys ==> k in groups
    ensures |ss| == |keys|
  {
    seq(|keys|, j requires 0 <= j < |keys| => SampleOf(draw, groups[keys[j]]))
  }

  /** `draw` behaves as `random.sample` does on every collection. */
  ghost predicate DrawsSamples(draw: seq<string> -> seq<string>)
  {
    forall group :: IsCollection(group) ==> IsSample(draw(group), group)
  }

  /** With such a draw, the samples are a sampling of the groups. */
  lemma SamplesSampling(draw: seq<string> -> seq<string>, keys: seq<string>, groups: map<string, seq<string>>)
    requires DrawsSamples(draw) && forall k :: k in keys ==> k in groups
    ensures Sampling(keys, groups, Samples(draw, keys, groups))
  {
  }

  /** The loop over `path_patterns.items()`: a collection contributes the sample `draw` gives and a `Redundant`
    * entry for each other member, in member order; any other group is kept whole. */
  method SampleCollections(g: Grouping, draw: seq<string> -> seq<string>)
    returns (sampled: seq<string>, excluded: seq<Exclusion>)
    requires forall k :: k in g.keys ==> k in g.groups
    ensures sampled == Concat(Samples(draw, g.keys, g.groups))
    ensures excluded == Redundant(g.keys, g.groups, Samples(draw, g.keys, g.groups))
  {
    sampled, excluded := [], [];
    for j := 0 to |g.keys|
      invariant sampled == Concat(Samples(draw, g.keys[..j], g.groups))
      invariant excluded == Redundant(g.keys[..j], g.groups, Samples(draw, g.keys[..j], g.groups))
    {
      var pattern := g.keys[j];
      var urls := g.groups[pattern];
      SampleStep(draw, g.keys, g.groups, j);
      if IsCollection(urls) {
        var sample := draw(urls);
        sampled := sampled + sample;
        var redundant := ExcludeUnsampled(urls, sample, pattern);
        excluded := excluded + redundant;
      } else {
        sampled := sampled + urls;
      }
    }
    assert g.keys[..|g.keys|] == g.keys;
  }

  /** The loop over a collection: every member not drawn is recorded as redundant, in group order. */
  method ExcludeUnsampled(urls: seq<string>, sample: seq<string>, pattern: string) returns (entries: seq<Exclusion>)
    ensures entries == RedundantEntries(urls, sample, |urls|, pattern)
  {
    entries := [];
    for i := 0 to |urls|
      invariant entries == RedundantEntries(urls[..i], sample, |urls|, pattern)
    {
      assert urls[..i + 1][..i] == urls[..i];
      if urls[i] !in sample {
        entries := entries + [RedundantEntry(urls[i], |urls|, pattern)];
      }
    }
    assert urls[..|urls|] == urls;
  }

  /** Sampling one more group appends its sample to the drawn URLs and its undrawn members to the exclusions. */
  lemma SampleStep(draw: seq<string> -> seq<string>, keys: seq<string>, groups: map<string, seq<string>>, j: nat)
    requires j < |keys| && forall k :: k in keys ==> k in groups
    ensures var done, next := Samples(draw, keys[..j], groups), Samples(draw, keys[..j + 1], groups);
            var group := groups[keys[j]];
              && Concat(next) == Concat(done) + SampleOf(draw, group)
              && Redundant(keys[..j + 1], groups, next)
                 == Redundant(keys[..j], groups, done)
                    + (if IsCollection(group) then RedundantEntries(group, SampleOf(draw, group), |group|, keys[j]) else [])
  {
    var done, next := Samples(draw, keys[..j], groups), Samples(draw, keys[..j + 1], groups);
    assert keys[..j + 1][..j] == keys[..j];
    assert next == done + [SampleOf(draw, groups[keys[j]])];
    assert next[..j] == done;
  }

  /** What the job's own fetch of a page gave: the message of the exception `requests` raised (a status rejected
    * by `raise_for_status` included), or the text of the response with the two views of it that the scorer and
    * the rule-based parser read. */
  datatype PageFetch = FetchError(message: string) | Fetched(html: string, body: Option<Body>, document: Result<Document>)

  /** The world the job runs against. */
  datatype Services = Services(
    key: string,                         // the Google API key
    canFetch: string -> bool,            // robots.txt, for the crawl
    crawlFetch: string -> FetchResult,   // the crawler's fetches
    pageFetch: string -> PageFetch,      // the job's fetch of each page
    pageModel: string -> Result<string>, // the LLM parser's reply for a page's markup
    finalModel: Dict -> Result<string>,  // the final analysis' reply for the collected data
    decode: string -> Result<Dict>,      // `json.loads` of a text that starts with '{'
    draw: seq<string> -> seq<string>)    // `random.sample` on a collection

  /** `netloc.split('.')[0].lower()`. */
  function Subdomain(netloc: string): string
  {
    AsciiLower(Split(netloc, '.')[0])
  }

  function IrrelevantEntry(url: string): Exclusion
  {
    Exclusion(url, "Irrelevant", "Ausgeschlossene Subdomain")
  }

  const PageErrorPrefix := "Seitenverarbeitungsfehler: "

  /** The report for a page whose processing raised. */
  function PageFailure(url: string, message: string): Dict
  {
    map["url" := JStr(url), "error" := JStr(PageErrorPrefix + message)]
  }

  /** Where a page ends up: among the pages to analyse, the failure reports, or the excluded pages. */
  datatype PageOutcome = Relevant(page: Dict) | FailureReport(report: Dict) | Excluded(entry: Exclusion)

  /** A parse without `parsing_error` is tagged with the parser that made it. */
  function WithMethod(d: Dict, parsingMethod: string): Dict
  {
    if "parsing_error" in d then d else d["parsing_method" := JStr(parsingMethod)]
  }

  /** The parse of a fetched page: by rules when its confidence score reaches the threshold, else by the model. */
  function ParsedPage(s: Services, url: string, html: string, body: Option<Body>, document: Result<Document>): Dict
  {
    if Score(html, body) >= ConfidenceThreshold then WithMethod(PageJson(ExpectedPage(document, url)), "rule_based")
    else WithMethod(ParseWithLlm(s.key, url, s.pageModel(html), s.decode), "llm_based")
  }

  /** Where a page ends up, given its parsed URL, the fetch, and `page`, the parse of the fetched document. */
  function Route(url: string, parsed: Option<Url>, fetched: PageFetch, page: Dict): (r: PageOutcome)
    ensures r.Relevant? ==> "parsing_error" !in r.page
    ensures r.Excluded? ==> parsed.Some? && Subdomain(parsed.value.netloc) in ExcludedSubdomains
    ensures parsed.None? ==> r.FailureReport?
  {
    match parsed
    case None => FailureReport(PageFailure(url, InvalidUrl))
    case Some(u) =>
      if Subdomain(u.netloc) in ExcludedSubdomains then Excluded(IrrelevantEntry(url))
      else
        match fetched
        case FetchError(m) => FailureReport(PageFailure(url, m))
        case Fetched(_, _, _) => if "parsing_error" in page then FailureReport(page) else Relevant(page)
  }

  /** The parse of what the fetch returned (only consulted when the fetch succeeded). */
  function FetchedPage(s: Services, url: string, fetched: PageFetch): Dict
  {
    match fetched
    case FetchError(_) => map[]
    case Fetched(html, body, document) => ParsedPage(s, url, html, body, document)
  }

  /** The body of the page loop for one URL. */
  function Outcome(s: Services, url: string): PageOutcome
  {
    var fetched := s.pageFetch(url);
    Route(url, Parse(url), fetched, FetchedPage(s, url, fetched))
  }

  /** A page on an excluded subdomain is recorded as irrelevant and is neither fetched, scored nor parsed: its
    * outcome is the same whatever the fetch and the model would give. */
  lemma OutcomeExcluded(s: Services, url: string, pageFetch: string -> PageFetch, pageModel: string -> Result<string>)
    ensures Outcome(s, url).Excluded? <==> Parse(url).Some? && Subdomain(Parse(url).value.netloc) in ExcludedSubdomains
    ensures Outcome(s, url).Excluded? ==>
              && Outcome(s, url) == Excluded(IrrelevantEntry(url))
              && Outcome(s, url) == Outcome(s.(pageFetch := pageFetch, pageModel := pageModel), url)
  {
  }

  /** A fetched page whose score reaches 60 goes to the rule-based parser; it is kept for analysis exactly when the
    * document could be read, and then it is the parser's fields tagged `rule_based`. */
  lemma OutcomeRuleBased(s: Services, url: string, u: Url, html: string, body: Option<Body>, document: Result<Document>)
    requires Parse(url) == Some(u) && Subdomain(u.netloc) !in ExcludedSubdomains
    requires s.pageFetch(url) == Fetched(html, body, document)
    requires Score(html, body) >= ConfidenceThreshold
    ensures var rule := PageJson(ExpectedPage(document, url));
              && (Outcome(s, url).Relevant? <==> document.Ok?)
              && (document.Ok? ==> Outcome(s, url) == Relevant(rule["parsing_method" := JStr("rule_based")]))
              && (document.Err? ==> Outcome(s, url) == FailureReport(rule))
  {
    var rule := PageJson(ExpectedPage(document, url));
    var page := FetchedPage(s, url, s.pageFetch(url));
    assert page == WithMethod(rule, "rule_based");
    RuleBasedTagged(document, url);
    RouteFetched(url, u, s.pageFetch(url), page);
  }

  /** The rule-based parse is tagged exactly when the document could be read. */
  lemma RuleBasedTagged(document: Result<Document>, url: string)
    ensures var rule := PageJson(ExpectedPage(document, url));
              && ("parsing_error" in WithMethod(rule, "rule_based") <==> document.Err?)
              && (document.Ok? ==> WithMethod(rule, "rule_based") == rule["parsing_method" := JStr("rule_based")])
              && (document.Err? ==> WithMethod(rule, "rule_based") == rule)
  {
  }

  /** A fetched page on a kept subdomain is routed by its parse alone. */
  lemma RouteFetched(url: string, u: Url, fetched: PageFetch, page: Dict)
    requires Subdomain(u.netloc) !in ExcludedSubdomains && fetched.Fetched?
    ensures Route(url, Some(u), fetched, page) == if "parsing_error" in page then FailureReport(page) else Relevant(page)
  {
  }

  /** A fetched page whose score stays below 60 goes to the model; it is kept exactly when the model's parse has no
    * `parsing_error`, and then it is that parse tagged `llm_based`. */
  lemma OutcomeModelBased(s: Services, url: string, u: Url, html: string, body: Option<Body>, document: Result<Document>)
    requires Parse(url) == Some(u) && Subdomain(u.netloc) !in ExcludedSubdomains
    requires s.pageFetch(url) == Fetched(html, body, document)
    requires Score(html, body) < ConfidenceThreshold
    ensures var llm := ParseWithLlm(s.key, url, s.pageModel(html), s.decode);
              && (Outcome(s, url).Relevant? <==> "parsing_error" !in llm)
              && ("parsing_error" !in llm ==> Outcome(s, url) == Relevant(llm["parsing_method" := JStr("llm_based")]))
              && ("parsing_error" in llm ==> Outcome(s, url) == FailureReport(llm))
  {
    var llm := ParseWithLlm(s.key, url, s.pageModel(html), s.decode);
    assert FetchedPage(s, url, s.pageFetch(url)) == WithMethod(llm, "llm_based");
  }

  /** A parse without `parsing_error` names the parser that made it. */
  lemma ParsedPageTagged(s: Services, url: string, html: string, body: Option<Body>, document: Result<Document>)
    ensures var d := ParsedPage(s, url, html, body, document);
              "parsing_error" !in d ==> "parsing_method" in d && d["parsing_method"] in {JStr("rule_based"), JStr("llm_based")}
  {
  }

  /** A routed page that is kept is the parse itself, which has no `parsing_error`; a failure report is either that
    * parse, carrying `parsing_error`, or the processing `error` with its URL. */
  lemma RouteShape(url: string, parsed: Option<Url>, fetched: PageFetch, page: Dict)
    ensures var r := Route(url, parsed, fetched, page);
              && (r.Relevant? ==> r.page == page && "parsing_error" !in page)
              && (r.FailureReport? ==>
                    || (r.report == page && "parsing_error" in page)
                    || ("error" in r.report && "url" in r.report && r.report["url"] == JStr(url)))
  {
  }

  /** A page kept for analysis has no `parsing_error` and names its parser. */
  lemma OutcomeRelevantShape(s: Services, url: string)
    requires Outcome(s, url).Relevant?
    ensures var d := Outcome(s, url).page;
              "parsing_error" !in d && "parsing_method" in d
              && d["parsing_method"] in {JStr("rule_based"), JStr("llm_based")}
  {
    var f := s.pageFetch(url);
    RouteShape(url, Parse(url), f, FetchedPage(s, url, f));
    assert f.Fetched?;
    ParsedPageTagged(s, url, f.html, f.body, f.document);
  }

  /** Every failure report carries either the parser's `parsing_error` or the processing `error` with its URL. */
  lemma OutcomeFailureShape(s: Services, url: string)
    requires Outcome(s, url).FailureReport?
    ensures var d := Outcome(s, url).report;
              "parsing_error" in d || ("error" in d && "url" in d && d["url"] == JStr(url))
  {
    var f := s.pageFetch(url);
    RouteShape(url, Parse(url), f, FetchedPage(s, url, f));
  }

  /** The body of the page loop: the subdomain test, the fetch, the score, and the parse it selects. */
  method ProcessPage(s: Services, url: string, ghost process: string -> PageOutcome) returns (outcome: PageOutcome)
    requires forall u {:trigger Outcome(s, u)} :: process(u) == Outcome(s, u)
    ensures outcome == process(url)
  {
    ghost var expected := Outcome(s, url);
    var parsedUrl := Parse(url);
    if parsedUrl.None? {
      return FailureReport(PageFailure(url, InvalidUrl));
    }
    if Subdomain(parsedUrl.value.netloc) in ExcludedSubdomains {
      return Excluded(IrrelevantEntry(url));
    }
    var response := s.pageFetch(url);
    if response.FetchError? {
      return FailureReport(PageFailure(url, response.message));
    }
    var score := CalculateConfidenceScore(response.html, response.body);
    var parsedData: Dict;
    if score >= ConfidenceThreshold {
      var page := ParseHtmlToJson(response.document, url);
      parsedData := PageJson(page);
      if "parsing_error" !in parsedData {
        parsedData := parsedData["parsing_method" := JStr("rule_based")];
      }
    } else {
      parsedData := ParseWithLlm(s.key, url, s.pageModel(response.html), s.decode);
      if "parsing_error" !in parsedData {
        parsedData := parsedData["parsing_method" := JStr("llm_based")];
      }
    }
    if "parsing_error" in parsedData {
      outcome := FailureReport(parsedData);
    } else {
      outcome := Relevant(parsedData);
    }
  }

  function RelevantOf(os: seq<PageOutcome>): seq<Dict>
  {
    if os == [] then []
    else RelevantOf(os[..|os| - 1]) + (if os[|os| - 1].Relevant? then [os[|os| - 1].page] else [])
  }

  function FailedOf(os: seq<PageOutcome>): seq<Dict>
  {
    if os == [] then []
    else FailedOf(os[..|os| - 1]) + (if os[|os| - 1].FailureReport? then [os[|os| - 1].report] else [])
  }

  function ExcludedOf(os: seq<PageOutcome>): seq<Exclusion>
  {
    if os == [] then []
    else ExcludedOf(os[..|os| - 1]) + (if os[|os| - 1].Excluded? then [os[|os| - 1].entry] else [])
  }

  /** Every page yields exactly one entry: a failure on one page is reported and the loop goes on with the next. */
  lemma {:induction false} OutcomesAccounted(os: seq<PageOutcome>)
    ensures |RelevantOf(os)| + |FailedOf(os)| + |ExcludedOf(os)| == |os|
    ensures forall i :: 0 <= i < |os| && os[i].Relevant? ==> os[i].page in RelevantOf(os)
    ensures forall i :: 0 <= i < |os| && os[i].FailureReport? ==> os[i].report in FailedOf(os)
    ensures forall i :: 0 <= i < |os| && os[i].Excluded? ==> os[i].entry in ExcludedOf(os)
  {
    if os != [] {
      var init := os[..|os| - 1];
      OutcomesAccounted(init);
      assert forall i :: 0 <= i < |init| ==> init[i] == os[i];
    }
  }

  /** The page loop: each sampled URL is processed in turn and its outcome appended to its list; `outcomes` are the
    * outcomes in URL order. `process` names the page step for the contract: it must be `Outcome` of `s`. */
  method ProcessPages(s: Services, urls: seq<string>, excludedBefore: seq<Exclusion>, ghost process: string -> PageOutcome)
    returns (relevant: seq<Dict>, failed: seq<Dict>, excluded: seq<Exclusion>, ghost outcomes: seq<PageOutcome>)
    requires forall u {:trigger Outcome(s, u)} :: process(u) == Outcome(s, u)
    ensures |outcomes| == |urls| && forall i :: 0 <= i < |urls| ==> outcomes[i] == process(urls[i])
    ensures relevant == RelevantOf(outcomes)
    ensures failed == FailedOf(outcomes)
    ensures excluded == excludedBefore + ExcludedOf(outcomes)
  {
    relevant, failed, excluded, outcomes := [], [], excludedBefore, [];
    for i := 0 to |urls|
      invariant |outcomes| == i && forall j :: 0 <= j < i ==> outcomes[j] == process(urls[j])
      invariant relevant == RelevantOf(outcomes)
      invariant failed == FailedOf(outcomes)
      invariant excluded == excludedBefore + ExcludedOf(outcomes)
    {
      var outcome := ProcessPage(s, urls[i], process);
      CollectStep(outcomes, outcome);
      outcomes := outcomes + [outcome];
      match outcome
      case Relevant(page) => relevant := relevant + [page];
      case FailureReport(report) => failed := failed + [report];
      case Excluded(entry) => excluded := excluded + [entry];
    }
  }

  /** Appending an outcome extends exactly its own list. */
  lemma CollectStep(os: seq<PageOutcome>, o: PageOutcome)
    ensures RelevantOf(os + [o]) == RelevantOf(os) + (if o.Relevant? then [o.page] else [])
    ensures FailedOf(os + [o]) == FailedOf(os) + (if o.FailureReport? then [o.report] else [])
    ensures ExcludedOf(os + [o]) == ExcludedOf(os) + (if o.Excluded? then [o.entry] else [])
  {
    assert (os + [o])[..|os|] == os;
  }

  // ---- The final analysis and the job record ----

  const NoUrls := "Crawling hat keine internen URLs gefunden."
  const NoStructuredJson := "Konnte kein strukturiertes JSON in der KI-Antwort finden."

  /** A list of dictionaries as a JSON array. */
  function DictArray(ds: seq<Dict>): Json
  {
    JArr(seq(|ds|, i requires 0 <= i < |ds| => JObj(ds[i])))
  }

  /** The link map as a JSON object of URL arrays. */
  function LinkStructure(linkMap: map<string, seq<string>>): Json
  {
    JObj(map p | p in linkMap :: StrArray(linkMap[p]))
  }

  /** `final_data_input`: what the final analysis receives. It has something to analyse exactly when some page was
    * kept or some page failed; the excluded pages and the link map do not count. */
  function FinalInput(relevant: seq<Dict>, linkMap: map<string, seq<string>>, failed: seq<Dict>,
                      excluded: seq<Exclusion>): (d: Dict)
    ensures d.Keys == {"seiten_inhalte", "link_struktur", "parsing_fehlschlaege", "ausgeschlossene_seiten"}
    ensures d["seiten_inhalte"].JArr? && |d["seiten_inhalte"].items| == |relevant|
    ensures d["parsing_fehlschlaege"].JArr? && |d["parsing_fehlschlaege"].items| == |failed|
    ensures d["ausgeschlossene_seiten"].JArr? && |d["ausgeschlossene_seiten"].items| == |excluded|
    ensures HasData(d) <==> relevant != [] || failed != []
  {
    map["seiten_inhalte" := DictArray(relevant),
        "link_struktur" := LinkStructure(linkMap),
        "parsing_fehlschlaege" := DictArray(failed),
        "ausgeschlossene_seiten" := JArr(seq(|excluded|, i requires 0 <= i < |excluded| => ExclusionJson(excluded[i])))]
  }

  /** The job's result once the final analysis answered `full`: its JSON part is decoded and stored beside the whole
    * answer; a missing JSON part or a decoding error is the job's failure. */
  function FinalResult(full: string, decode: string -> Result<Dict>): Result<Dict>
  {
    match ExtractJson(full)
    case None => Err(NoStructuredJson)
    case Some(j) =>
      match decode(j)
      case Err(e) => Err(e)
      case Ok(d) => Ok(map["full_text_analysis" := JStr(full), "opportunity_analysis" := JObj(d)])
  }

  /** The final stage for the collected `input`. */
  function Finish(s: Services, input: Dict): (r: Result<Dict>)
    ensures r.Ok? ==> r.value.Keys == {"full_text_analysis", "opportunity_analysis"}
  {
    FinalResult(AnalyzeMessaging(s.key, input, s.finalModel(input)), s.decode)
  }

  /** The job fails for want of JSON exactly when the model's own reply held none; in every other case the worker
    * decodes the whole answer of the final analysis, since that answer is already its own JSON part. */
  lemma FinishSpec(s: Services, input: Dict)
    ensures var reply := s.finalModel(input);
            var full := AnalyzeMessaging(s.key, input, reply);
              && (KeyConfigured(s.key) && HasData(input) && reply.Ok? && ExtractJson(reply.value).None? ==>
                    Finish(s, input) == Err(NoStructuredJson))
              && (!(KeyConfigured(s.key) && HasData(input) && reply.Ok? && ExtractJson(reply.value).None?) ==>
                    match s.decode(full)
                    case Err(e) => Finish(s, input) == Err(e)
                    case Ok(d) => Finish(s, input) == Ok(map["full_text_analysis" := JStr(full),
                                                             "opportunity_analysis" := JObj(d)]))
  {
    AnalyzeMessagingExtractable(s.key, input, s.finalModel(input));
  }

  /** Without a configured key the final analysis answers with its error object, which the worker stores as a
    * completed result whenever it decodes: the outcome does not depend on the model at all. */
  lemma FinishWithoutKey(s: Services, input: Dict, finalModel: Dict -> Result<string>)
    requires !KeyConfigured(s.key)
    ensures Finish(s, input) == Finish(s.(finalModel := finalModel), input)
    ensures Finish(s, input).Ok? <==> s.decode(AnalysisKeyMissing).Ok?
    ensures Finish(s, input).Ok? ==> Finish(s, input).value["full_text_analysis"] == JStr(AnalysisKeyMissing)
  {
    ObjectTextExtracts(KeyMissingMembers);
  }

  /** With nothing kept and nothing failed, the final analysis answers with its no-data object without asking the
    * model, and the job completes with it whenever it decodes. */
  lemma FinishWithoutData(s: Services, linkMap: map<string, seq<string>>, excluded: seq<Exclusion>,
                          finalModel: Dict -> Result<string>)
    requires KeyConfigured(s.key)
    ensures var input := FinalInput([], linkMap, [], excluded);
              && Finish(s, input) == Finish(s.(finalModel := finalModel), input)
              && (Finish(s, input).Ok? <==> s.decode(AnalysisNoData).Ok?)
              && (Finish(s, input).Ok? ==> Finish(s, input).value["full_text_analysis"] == JStr(AnalysisNoData))
  {
    ObjectTextExtracts(NoDataMembers);
  }

  /** `error_details`: the message of the exception and the traceback text. */
  function ErrorDetails(message: string, trace: string): Dict
  {
    map["error" := JStr(message), "traceback" := JStr(trace)]
  }

  /** Records the end of the run on the job: completed with the result, or failed with the error's details. */
  method RecordResult(job: AnalysisJob, result: Result<Dict>, trace: string, now: int)
    modifies job
    ensures job.finishedAt == Some(now) && job.Consistent()
    ensures job.status == Completed <==> result.Ok?
    ensures job.status == Failed <==> result.Err?
    ensures result.Ok? ==> job.resultJson == Some(result.value)
    ensures result.Err? ==> job.resultJson == Some(ErrorDetails(result.error, trace))
  {
    match result {
      case Err(message) =>
        job.status := Failed;
        job.resultJson := Some(ErrorDetails(message, trace));
      case Ok(value) =>
        job.status := Completed;
        job.resultJson := Some(value);
    }
    job.finishedAt := Some(now);
  }

  /** What the stages after the crawl made of the crawled `urls` and `linkMap`: the grouping succeeded exactly when
    * `input` was reached, and then the sampling of its groups was processed page by page by `process` and the input
    * holds the kept pages, the failures and every excluded page (the redundant ones first). */
  ghost predicate Analysed(draw: seq<string> -> seq<string>, process: string -> PageOutcome, urls: seq<string>,
                           linkMap: map<string, seq<string>>, sampled: seq<string>, outcomes: seq<PageOutcome>,
                           input: Option<Dict>)
  {
    && (input.Some? <==> Grouped(PatternKey, urls).Ok?)
    && (input.Some? ==>
          var g := Grouped(PatternKey, urls).value;
          var samples := Samples(draw, g.keys, g.groups);
          && sampled == Concat(samples)
          && |outcomes| == |sampled| && (forall i :: 0 <= i < |sampled| ==> outcomes[i] == process(sampled[i]))
          && input.value == FinalInput(RelevantOf(outcomes), linkMap, FailedOf(outcomes),
                                       Redundant(g.keys, g.groups, samples) + ExcludedOf(outcomes)))
  }

  /** The part of `async_run_analysis` after the crawl and the root URL: group, sample, process the pages, run the
    * final analysis and decode its JSON part. `process` names the page step for the contract: it must be `Outcome`
    * of `s`. An error result is the message of the exception that ends the job. */
  method AnalyseCrawl(s: Services, urls: seq<string>, linkMap: map<string, seq<string>>, ghost process: string -> PageOutcome)
    returns (result: Result<Dict>, ghost sampled: seq<string>, ghost outcomes: seq<PageOutcome>, ghost input: Option<Dict>)
    requires forall u {:trigger Outcome(s, u)} :: process(u) == Outcome(s, u)
    ensures Analysed(s.draw, process, urls, linkMap, sampled, outcomes, input)
    ensures input.None? ==> result == Err(InvalidUrl)
    ensures input.Some? ==> result == Finish(s, input.value)
  {
    sampled, outcomes, input := [], [], None;
    var grouping := GroupByPattern(urls);
    if grouping.Err? {
      return Err(InvalidUrl), sampled, outcomes, input;
    }
    var g := grouping.value;
    var toProcess, redundant := SampleCollections(g, s.draw);
    sampled := toProcess;
    var relevant, failed, excluded;
    relevant, failed, excluded, outcomes := ProcessPages(s, toProcess, redundant, process);
    var finalInput := FinalInput(relevant, linkMap, failed, excluded);
    input := Some(finalInput);

    var full := AnalyzeMessaging(s.key, finalInput, s.finalModel(finalInput));
    var structured := ExtractJson(full);
    if structured.None? {
      return Err(NoStructuredJson), sampled, outcomes, input;
    }
    var decoded := s.decode(structured.value);
    if decoded.Err? {
      return Err(decoded.error), sampled, outcomes, input;
    }
    result := Ok(map["full_text_analysis" := JStr(full), "opportunity_analysis" := JObj(decoded.value)]);
  }

  /** The record of the crawl a job ran: the three results of `get_url_list_and_map` and the crawler's enqueue,
    * dequeue and fetch orders. */
  datatype CrawlRun = CrawlRun(urls: seq<string>, linkMap: map<string, seq<string>>, externalLinks: seq<string>,
                               enqueued: seq<string>, dequeued: seq<string>, fetched: seq<string>)

  /** What the analysis of `urlInput` yields: a start URL without a domain yields no URLs and fails with that
    * message; otherwise the job analyses what the crawler returned for it with the default page budget, and fails
    * with the URL error when the root URL or the grouping cannot be formed; once the final analysis is reached,
    * through the stages after the crawl, the result is what the final stage makes of its input. */
  ghost predicate SiteAnalysed(urlInput: string, s: Services, process: string -> PageOutcome, result: Result<Dict>,
                               crawl: CrawlRun, sampled: seq<string>, outcomes: seq<PageOutcome>, input: Option<Dict>)
  {
    && (GetBaseDomain(urlInput) == [] ==> result == Err(NoUrls) && input.None? && crawl.urls == [])
    && (GetBaseDomain(urlInput) != [] ==>
          && CrawlPostcondition(GetBaseDomain, urlInput, None, s.canFetch, s.crawlFetch, crawl.urls, crawl.linkMap,
                                crawl.externalLinks, crawl.enqueued, crawl.dequeued, crawl.fetched)
          && NormalizeUrl(urlInput) in crawl.urls
          && (input.None? ==> result == Err(InvalidUrl)))
    && (input.None? ==> result.Err?)
    && (input.Some? ==>
          && result == Finish(s, input.value)
          && GetCleanRootUrl(urlInput).Some?
          && Analysed(s.draw, process, crawl.urls, crawl.linkMap, sampled, outcomes, input))
  }

  /** The analysis `async_run_analysis` runs inside its `try` for `urlInput`: crawl, take the root URL, then the stages
    * after the crawl. An error result is the message of the exception that ends the job. */
  method AnalyseSite(urlInput: string, s: Services, ghost process: string -> PageOutcome)
    returns (result: Result<Dict>, ghost crawl: CrawlRun, ghost sampled: seq<string>, ghost outcomes: seq<PageOutcome>,
             ghost input: Option<Dict>)
    requires forall u {:trigger Outcome(s, u)} :: process(u) == Outcome(s, u)
    ensures SiteAnalysed(urlInput, s, process, result, crawl, sampled, outcomes, input)
  {
    sampled, outcomes, input := [], [], None;
    var urls, links, external, enqueued, dequeued, fetched := GetUrlListAndMap(urlInput, None, s.canFetch, s.crawlFetch);
    crawl := CrawlRun(urls, links, external, enqueued, dequeued, fetched);
    if GetBaseDomain(urlInput) != [] {
      assert enqueued[0] in enqueued;
    }
    if urls == [] {
      return Err(NoUrls), crawl, sampled, outcomes, input;
    }
    var rootUrl := GetCleanRootUrl(urlInput);
    if rootUrl.None? {
      return Err(InvalidUrl), crawl, sampled, outcomes, input;
    }
    result, sampled, outcomes, input := AnalyseCrawl(s, urls, links, process);
  }

  /** `async_run_analysis`: runs the analysis of `urlInput` and records its outcome on `job` (`null` when no job with
    * that id exists, and then nothing happens): the job is marked in progress, then completed with the result or
    * failed with the error's message and the traceback text `trace`, and finished at `now`. The ghost results are
    * those of `AnalyseSite`. */
  method RunAnalysis(job: AnalysisJob?, urlInput: string, s: Services, now: int, trace: string,
                     ghost process: string -> PageOutcome)
    returns (ghost result: Result<Dict>, ghost crawl: CrawlRun, ghost sampled: seq<string>, ghost outcomes: seq<PageOutcome>,
             ghost input: Option<Dict>)
    requires forall u {:trigger Outcome(s, u)} :: process(u) == Outcome(s, u)
    modifies job
    ensures job != null ==>
              && job.finishedAt == Some(now) && job.Consistent()
              && (job.status == Completed <==> result.Ok?) && (job.status == Failed <==> result.Err?)
              && (result.Ok? ==> job.resultJson == Some(result.value))
              && (result.Err? ==> job.resultJson == Some(ErrorDetails(result.error, trace)))
    ensures job != null ==> SiteAnalysed(urlInput, s, process, result, crawl, sampled, outcomes, input)
  {
    result, crawl, sampled, outcomes, input := Err(""), CrawlRun([], map[], [], [], [], []), [], [], None;
    if job == null {
      return;
    }
    job.status := InProgress;
    var r;
    r, crawl, sampled, outcomes, input := AnalyseSite(urlInput, s, process);
    result := r;
    RecordResult(job, r, trace, now);
  }
}
