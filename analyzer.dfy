/** The LLM side of the pipeline (`app/core/analyzer.py`): the JSON cut-out of a model reply, the LLM parser used
  * for pages the rule-based parser is not trusted with, and the final messaging analysis. The model's reply
  * (its text, or the message of the exception the call raised) and `json.loads` are parameters. */
module Analyzer {

  import opened Wrappers
  import opened Text
  import opened Json
  import opened Settings

  /** `m` occurs in `text` starting at index `a`. */
  predicate MatchAt(text: string, a: int, m: string)
  {
    0 <= a && a + |m| <= |text| && text[a..a + |m|] == m
  }

  /** `_extract_json_from_text`: the search for `\{.*\}` with `re.DOTALL`. The leftmost match starts at the first
    * '{' and the greedy `.*` runs to the last '}'; there is a match exactly when some '}' follows that '{'. */
  function ExtractJson(text: string): (r: Option<string>)
    ensures r.Some? ==> 2 <= |r.value| <= |text| && r.value[0] == '{' && r.value[|r.value| - 1] == '}'
  {
    var i := IndexOf(text, '{');
    var j := LastIndexOf(text, '}');
    if i < j then Some(text[i..j + 1]) else None
  }

  /** There is a match exactly when a '{' occurs before a '}'. */
  lemma ExtractJsonFound(text: string)
    ensures ExtractJson(text).Some? <==>
              exists a, b :: 0 <= a < b < |text| && text[a] == '{' && text[b] == '}'
  {
    var i := IndexOf(text, '{');
    var j := LastIndexOf(text, '}');
    if exists a, b :: 0 <= a < b < |text| && text[a] == '{' && text[b] == '}' {
      var a, b :| 0 <= a < b < |text| && text[a] == '{' && text[b] == '}';
      assert i <= a;
      assert b <= j;
    }
  }

  /** A match starts with '{', ends with '}', and is the stretch of the input from its first '{' to its last '}'. */
  lemma ExtractJsonMatch(text: string)
    requires ExtractJson(text).Some?
    ensures var m := ExtractJson(text).value;
              && 2 <= |m| && m[0] == '{' && m[|m| - 1] == '}'
              && exists a :: MatchAt(text, a, m) && '{' !in text[..a] && '}' !in text[a + |m|..]
  {
    var i := IndexOf(text, '{');
    var j := LastIndexOf(text, '}');
    var m := text[i..j + 1];
    assert MatchAt(text, i, m);
    assert '{' !in text[..i] by {
      forall k | 0 <= k < i ensures text[..i][k] != '{' { }
    }
    assert '}' !in text[j + 1..] by {
      forall k | j + 1 <= k < |text| ensures text[k] != '}' { }
    }
  }

  /** A text that starts with '{' and ends with a later '}' is its own match. */
  lemma ExtractJsonWhole(m: string)
    requires 2 <= |m| && m[0] == '{' && m[|m| - 1] == '}'
    ensures ExtractJson(m) == Some(m)
  {
    assert IndexOf(m, '{') == 0;
    assert LastIndexOf(m, '}') == |m| - 1;
    assert m[0..|m|] == m;
  }

  /** Extracting again from a match gives the match back. */
  lemma ExtractJsonIdempotent(text: string)
    requires ExtractJson(text).Some?
    ensures ExtractJson(ExtractJson(text).value) == ExtractJson(text)
  {
    ExtractJsonMatch(text);
    ExtractJsonWhole(ExtractJson(text).value);
  }

  // The messages of `parse_with_llm`.
  const ParserKeyMissing := "API Key not configured."
  const ParserNoJson := "LLM-Parser hat kein valides JSON-Objekt zurückgegeben."
  const ParserUnexpected := "Unerwarteter Fehler im LLM-Parser: "

  /** The failure record of `parse_with_llm`, with the raw reply when one is given. */
  function ParserFailure(url: string, message: string, raw: Option<string>): (d: Dict)
    ensures "url" in d && d["url"] == JStr(url)
    ensures "parsing_error" in d && d["parsing_error"] == JStr(message)
    ensures "raw_llm_response" in d <==> raw.Some?
    ensures raw.Some? ==> d["raw_llm_response"] == JStr(raw.value)
  {
    var d := map["url" := JStr(url), "parsing_error" := JStr(message)];
    if raw.Some? then d["raw_llm_response" := JStr(raw.value)] else d
  }

  /** `parse_with_llm` for the page at `url`, where `key` is the configured API key, `reply` what the model call
    * gave (the text of its response, or the message of the exception it raised) and `decode` is `json.loads`.
    * A text that starts with '{' decodes, if at all, to an object, so `decode` yields a dictionary. The raw reply
    * is attached to every failure after the call; a call that raised leaves it empty. */
  function ParseWithLlm(key: string, url: string, reply: Result<string>, decode: string -> Result<Dict>): (d: Dict)
    ensures var decoded := if KeyConfigured(key) && reply.Ok? && ExtractJson(reply.value).Some?
                           then decode(ExtractJson(reply.value).value) else Err("");
      && (decoded.Ok? ==> d == decoded.value)
      && (!decoded.Ok? ==> "parsing_error" in d && "url" in d && d["url"] == JStr(url))
  {
    if !KeyConfigured(key) then ParserFailure(url, ParserKeyMissing, None)
    else
      match reply
      case Err(e) => ParserFailure(url, ParserUnexpected + e, Some(""))
      case Ok(raw) =>
        match ExtractJson(raw)
        case None => ParserFailure(url, ParserNoJson, Some(raw))
        case Some(js) =>
          match decode(js)
          case Err(e) => ParserFailure(url, ParserUnexpected + e, Some(raw))
          case Ok(d) => d
  }

  /** The reply decoded: the object `json.loads` makes of its JSON part, when there is a reply and it has one. */
  predicate Decoded(reply: Result<string>, decode: string -> Result<Dict>, d: Dict)
  {
    reply.Ok? && ExtractJson(reply.value).Some? && decode(ExtractJson(reply.value).value) == Ok(d)
  }

  /** Without a usable key the parser answers with the key error alone, whatever the model would have said: the
    * model is never consulted. */
  lemma ParseWithLlmKeyGuard(key: string, url: string, reply: Result<string>, decode: string -> Result<Dict>,
                             reply': Result<string>, decode': string -> Result<Dict>)
    requires !KeyConfigured(key)
    ensures ParseWithLlm(key, url, reply, decode) == ParseWithLlm(key, url, reply', decode')
    ensures ParseWithLlm(key, url, reply, decode) == map["url" := JStr(url), "parsing_error" := JStr(ParserKeyMissing)]
  {
  }

  /** With a usable key, the result is the decoded object when the reply holds JSON that decodes; otherwise it is a
    * failure record for `url` that carries the raw reply ("" when the call raised) and says why. */
  lemma ParseWithLlmOutcome(key: string, url: string, reply: Result<string>, decode: string -> Result<Dict>)
    requires KeyConfigured(key)
    ensures var r := ParseWithLlm(key, url, reply, decode);
              (forall d :: Decoded(reply, decode, d) ==> r == d)
              && ((forall d :: !Decoded(reply, decode, d)) ==>
                    && "url" in r && r["url"] == JStr(url)
                    && "parsing_error" in r && "raw_llm_response" in r
                    && r["raw_llm_response"] == JStr(if reply.Ok? then reply.value else "")
                    && (reply.Err? ==> r["parsing_error"] == JStr(ParserUnexpected + reply.error))
                    && (reply.Ok? && ExtractJson(reply.value).None? ==> r["parsing_error"] == JStr(ParserNoJson))
                    && (reply.Ok? && ExtractJson(reply.value).Some? ==>
                          var decoded := decode(ExtractJson(reply.value).value);
                          decoded.Err? && r["parsing_error"] == JStr(ParserUnexpected + decoded.error)))
  {
    if reply.Ok? && ExtractJson(reply.value).Some? {
      match decode(ExtractJson(reply.value).value)
      case Ok(d) => assert Decoded(reply, decode, d);
      case Err(_) =>
    }
  }

  /** The text of a JSON object whose members are written out in `members`. */
  function ObjectText(members: string): string
  {
    "{" + members + "}"
  }

  /** The text of a JSON object is its own JSON part. */
  lemma ObjectTextExtracts(members: string)
    ensures ExtractJson(ObjectText(members)) == Some(ObjectText(members))
  {
    ExtractJsonWhole(ObjectText(members));
  }

  // The answers `analyze_messaging` builds itself (`json.dumps` output and the f-string of its exception handler).
  const KeyMissingMembers := "\"error\": \"API Key nicht konfiguriert.\""
  const NoDataMembers := "\"error\": \"Keine Daten zum Analysieren vorhanden.\""
  const UnexpectedMembers := "\"error\": \"Bei der finalen Analyse ist ein unerwarteter Fehler aufgetreten.\", \"details\": \""
  const AnalysisKeyMissing := ObjectText(KeyMissingMembers)
  const AnalysisNoData := ObjectText(NoDataMembers)

  function AnalysisUnexpected(e: string): string
  {
    ObjectText(UnexpectedMembers + e + "\"")
  }

  /** The collected data holds something to analyse: page contents or parsing failures. */
  predicate HasData(data: Dict)
  {
    Truthy(Get(data, "seiten_inhalte", JNull)) || Truthy(Get(data, "parsing_fehlschlaege", JNull))
  }

  /** `analyze_messaging` over the collected `data`: the key is checked first, then that there is data; the reply is
    * returned as its JSON part, or whole when it has none. */
  function AnalyzeMessaging(key: string, data: Dict, reply: Result<string>): (r: string)
    ensures KeyConfigured(key) && HasData(data) && reply.Ok? ==> |r| <= |reply.value|
    ensures KeyConfigured(key) && HasData(data) && reply.Ok? && ExtractJson(reply.value).Some? ==>
              r != [] && r[0] == '{' && r[|r| - 1] == '}'
  {
    if !KeyConfigured(key) then AnalysisKeyMissing
    else if !HasData(data) then AnalysisNoData
    else
      match reply
      case Err(e) => AnalysisUnexpected(e)
      case Ok(raw) =>
        match ExtractJson(raw)
        case None => raw
        case Some(js) => js
  }

  /** The checks come in order: a missing key wins over missing data, and both answer without the model. */
  lemma AnalyzeMessagingGuards(key: string, data: Dict, reply: Result<string>, reply': Result<string>)
    ensures !KeyConfigured(key) ==> AnalyzeMessaging(key, data, reply) == AnalysisKeyMissing
    ensures KeyConfigured(key) && !HasData(data) ==> AnalyzeMessaging(key, data, reply) == AnalysisNoData
    ensures !KeyConfigured(key) || !HasData(data) ==>
              AnalyzeMessaging(key, data, reply) == AnalyzeMessaging(key, data, reply')
  {
  }

  /** A reply is passed on whole when it holds no JSON, and otherwise cut down to exactly its JSON part; a failed
    * call gives the error object with the exception's message as its details. */
  lemma AnalyzeMessagingReply(key: string, data: Dict, raw: string, e: string)
    requires KeyConfigured(key) && HasData(data)
    ensures ExtractJson(raw).None? ==> AnalyzeMessaging(key, data, Ok(raw)) == raw
    ensures ExtractJson(raw).Some? ==> AnalyzeMessaging(key, data, Ok(raw)) == ExtractJson(raw).value
    ensures AnalyzeMessaging(key, data, Err(e)) == AnalysisUnexpected(e)
    ensures AnalysisUnexpected(e) == "{" + UnexpectedMembers + e + "\"}"
  {
  }

  /** Every answer except a JSON-less reply holds a JSON part, and that part is the whole answer: the worker's
    * second extraction finds something exactly when the model's reply was not free of JSON. */
  lemma AnalyzeMessagingExtractable(key: string, data: Dict, reply: Result<string>)
    ensures var r := AnalyzeMessaging(key, data, reply);
              (ExtractJson(r).None? <==>
                 KeyConfigured(key) && HasData(data) && reply.Ok? && ExtractJson(reply.value).None?)
              && (ExtractJson(r).Some? ==> ExtractJson(r) == Some(r))
  {
    var r := AnalyzeMessaging(key, data, reply);
    if !KeyConfigured(key) {
      ObjectTextExtracts(KeyMissingMembers);
    } else if !HasData(data) {
      ObjectTextExtracts(NoDataMembers);
    } else if reply.Err? {
      ObjectTextExtracts(UnexpectedMembers + reply.error + "\"");
    } else if ExtractJson(reply.value).Some? {
      ExtractJsonIdempotent(reply.value);
    }
  }
}
