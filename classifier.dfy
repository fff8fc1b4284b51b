/** The page classifier (`app/core/page_classifier.py`): the summary of a parsed page that is shown to the model,
  * and the whitelist its one-word answer must pass. The model is a parameter from that summary to its reply (the
  * text of its response, or the message of the exception the call raised). */
module PageClassifier {

  import opened Wrappers
  import opened Text
  import opened Json
  import opened Settings

  /** The answers the classifier accepts, in the order it lists them. */
  const AllowedCategories: seq<string> := ["Core_Messaging", "Supporting_Content", "Boilerplate", "Hard_to_read"]

  /** The answer for a missing key, a failed call and a reply outside the whitelist. */
  const Fallback := "Hard_to_read"

  // What Python raises when the content structure cannot be walked as a list of dictionaries.
  const NotIterable := "TypeError: object is not iterable"
  const NoGet := "AttributeError: object has no attribute 'get'"

  /** `section.get("heading")` of a dictionary section. */
  function HeadingOf(section: Json): Json
    requires section.JObj?
  {
    Get(section.fields, "heading", JNull)
  }

  /** The truthy headings of `sections`, in order; a section that is not a dictionary raises. */
  function Headings(sections: seq<Json>): (r: Result<seq<Json>>)
    ensures r.Ok? ==> |r.value| <= |sections| && forall k :: 0 <= k < |r.value| ==> Truthy(r.value[k])
  {
    if sections == [] then Ok([])
    else if !sections[0].JObj? then Err(NoGet)
    else
      match Headings(sections[1..])
      case Err(e) => Err(e)
      case Ok(rest) => Ok(if Truthy(HeadingOf(sections[0])) then [HeadingOf(sections[0])] + rest else rest)
  }

  /** The headings are collected exactly when every section is a dictionary; then they are the truthy headings of
    * the sections, no more and no fewer. */
  lemma {:induction false} HeadingsSpec(sections: seq<Json>)
    ensures Headings(sections).Ok? <==> forall i :: 0 <= i < |sections| ==> sections[i].JObj?
    ensures Headings(sections).Ok? ==>
              var hs := Headings(sections).value;
              && |hs| <= |sections|
              && (forall h :: h in hs ==> Truthy(h))
              && (forall h :: h in hs ==> exists i :: 0 <= i < |sections| && sections[i].JObj? && HeadingOf(sections[i]) == h)
              && (forall i :: 0 <= i < |sections| && Truthy(HeadingOf(sections[i])) ==> HeadingOf(sections[i]) in hs)
  {
    if sections != [] {
      HeadingsSpec(sections[1..]);
      if Headings(sections).Ok? {
        var hs := Headings(sections).value;
        var rest := Headings(sections[1..]).value;
        forall h | h in hs
          ensures exists i :: 0 <= i < |sections| && sections[i].JObj? && HeadingOf(sections[i]) == h
        {
          if h !in rest {
            assert sections[0].JObj? && HeadingOf(sections[0]) == h;
          } else {
            var i :| 0 <= i < |sections[1..]| && sections[1..][i].JObj? && HeadingOf(sections[1..][i]) == h;
            assert sections[i + 1] == sections[1..][i];
          }
        }
        forall i | 0 <= i < |sections| && Truthy(HeadingOf(sections[i]))
          ensures HeadingOf(sections[i]) in hs
        {
          if i > 0 {
            assert sections[i] == sections[1..][i - 1];
          }
        }
      } else if sections[0].JObj? {
        var i :| 0 <= i < |sections[1..]| && !sections[1..][i].JObj?;
        assert !sections[i + 1].JObj?;
      }
    }
  }

  /** The headings of two runs of sections are those of the first run followed by those of the second, and they
    * are collected exactly when both runs are. */
  lemma {:induction false} HeadingsAppend(a: seq<Json>, b: seq<Json>)
    ensures Headings(a + b).Ok? <==> Headings(a).Ok? && Headings(b).Ok?
    ensures Headings(a + b).Ok? ==> Headings(a + b).value == Headings(a).value + Headings(b).value
    decreases |a|
  {
    if a == [] {
      assert a + b == b;
    } else {
      assert (a + b)[0] == a[0];
      assert (a + b)[1..] == a[1..] + b;
      HeadingsAppend(a[1..], b);
    }
  }

  /** One section gives its heading when that is truthy and nothing otherwise; a section that is not a dictionary
    * raises. */
  lemma HeadingsOne(section: Json)
    ensures !section.JObj? ==> Headings([section]) == Err(NoGet)
    ensures section.JObj? ==>
              Headings([section]) == Ok(if Truthy(HeadingOf(section)) then [HeadingOf(section)] else [])
  {
    assert [section][1..] == [];
    assert Headings([]) == Ok([]);
    if section.JObj? {
      assert [HeadingOf(section)] + [] == [HeadingOf(section)];
    }
  }

  /** The headings of `page_data.get("content_structure", [])`: iterating an empty string or dictionary yields
    * nothing, a non-empty one yields keys or characters without `get`, anything else is not iterable. */
  function ContentHeadings(structure: Json): Result<seq<Json>>
  {
    match structure
    case JArr(sections) => Headings(sections)
    case JObj(fields) => if fields == map[] then Ok([]) else Err(NoGet)
    case JStr(s) => if s == [] then Ok([]) else Err(NoGet)
    case _ => Err(NotIterable)
  }

  /** `classification_input`: the page's url, title, meta description and h1 (each "" when absent) and the headings
    * of its sections. */
  function ClassificationInput(page: Dict): (r: Result<Dict>)
    ensures r.Ok? ==> r.value.Keys == {"url", "page_title", "meta_description", "h1", "headings_in_content"}
  {
    match ContentHeadings(Get(page, "content_structure", JArr([])))
    case Err(e) => Err(e)
    case Ok(hs) =>
      Ok(map["url" := Get(page, "url", JStr("")),
             "page_title" := Get(page, "page_title", JStr("")),
             "meta_description" := Get(page, "meta_description", JStr("")),
             "h1" := Get(page, "h1", JStr("")),
             "headings_in_content" := JArr(hs)])
  }

  /** The model is shown the four page fields as they are, "" for a missing one, and the truthy headings of the
    * page's sections; a page parsed by the rule-based parser, whose content structure is a list of sections, is
    * always summarised. */
  lemma ClassificationInputSpec(page: Dict)
    ensures ClassificationInput(page).Ok? ==>
              var input := ClassificationInput(page).value;
              && input.Keys == {"url", "page_title", "meta_description", "h1", "headings_in_content"}
              && (forall k :: k in {"url", "page_title", "meta_description", "h1"} ==>
                    input[k] == if k in page then page[k] else JStr(""))
              && input["headings_in_content"].JArr?
              && (forall h :: h in input["headings_in_content"].items ==> Truthy(h))
    ensures "content_structure" !in page ==>
              ClassificationInput(page).Ok? && ClassificationInput(page).value["headings_in_content"] == JArr([])
    ensures "content_structure" in page && page["content_structure"].JArr?
            && (forall i :: 0 <= i < |page["content_structure"].items| ==> page["content_structure"].items[i].JObj?) ==>
              ClassificationInput(page).Ok?
  {
    var structure := Get(page, "content_structure", JArr([]));
    if structure.JArr? {
      HeadingsSpec(structure.items);
    }
  }

  /** `classify_page`: with a usable key the page summary goes to `model`, whose stripped answer is returned when it
    * is one of the allowed categories; a missing key, a failed call or any other answer gives the fallback. `Err` is
    * the exception raised while summarising the page, which `classify_page` does not catch. */
  function ClassifyPage(key: string, page: Dict, model: Dict -> Result<string>): (r: Result<string>)
    ensures r.Ok? ==> r.value in AllowedCategories
  {
    if !KeyConfigured(key) then Ok(Fallback)
    else
      match ClassificationInput(page)
      case Err(e) => Err(e)
      case Ok(input) =>
        match model(input)
        case Err(_) => Ok(Fallback)
        case Ok(text) =>
          var category := Strip(text);
          if category in AllowedCategories then Ok(category) else Ok(Fallback)
  }

  /** Without a usable key the answer is the fallback, for any page and without consulting the model. */
  lemma ClassifyPageKeyGuard(key: string, page: Dict, model: Dict -> Result<string>)
    requires !KeyConfigured(key)
    ensures ClassifyPage(key, page, model) == Ok(Fallback)
  {
  }

  /** With a usable key and a page that can be summarised, the stripped reply is returned exactly when it is allowed,
    * and a failed call or any other reply gives the fallback. */
  lemma ClassifyPageReply(key: string, page: Dict, model: Dict -> Result<string>)
    requires KeyConfigured(key) && ClassificationInput(page).Ok?
    ensures var reply := model(ClassificationInput(page).value);
              var r := ClassifyPage(key, page, model);
              && (reply.Err? ==> r == Ok(Fallback))
              && (reply.Ok? ==> (r == Ok(Strip(reply.value)) <==> Strip(reply.value) in AllowedCategories)
                                && (Strip(reply.value) !in AllowedCategories ==> r == Ok(Fallback)))
  {
  }
}
