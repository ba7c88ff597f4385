/**
 * The first filter stage (src/engine/processor.py): relevance by blacklist and
 * whitelist patterns, the branching of `process`, and the keyword extractor
 * used when no LLM result is available. Regular-expression search is the
 * uninterpreted `matches(pattern, text)`, standing for `re.search` with
 * `re.IGNORECASE`.
 */
module Processor {
  import opened Wrappers
  import opened Strings
  import opened Types
  import opened Json

  /** The settings `SignalProcessor` reads: the two pattern lists and `intelligence.enabled`. */
  datatype Settings = Settings(whitelist: seq<string>, blacklist: seq<string>, intelligenceEnabled: bool)

  /** The pattern lists of the module-level `Settings` object. */
  function DefaultSettings(): (s: Settings)
    ensures |s.whitelist| == 3 && |s.blacklist| == 2 && s.intelligenceEnabled
  {
    Settings([@"\b(buy|sell)\b", @"\b(stock|option|future)\b", @"\b(price|value)\b"],
             [@"\b(spam|advertisement)\b", @"\b(ignore|discard)\b"],
             true)
  }

  predicate AnyMatch(matches: (string, string) -> bool, patterns: seq<string>, text: string)
  {
    exists p :: p in patterns && matches(p, text)
  }

  /** Relevant: no blacklist pattern matches and some whitelist pattern does. */
  predicate Relevant(matches: (string, string) -> bool, settings: Settings, text: string)
  {
    !AnyMatch(matches, settings.blacklist, text) && AnyMatch(matches, settings.whitelist, text)
  }

  /** `is_relevant`: the blacklist loop first, with early return, then the whitelist loop. */
  method IsRelevant(matches: (string, string) -> bool, settings: Settings, text: string)
    returns (relevant: bool)
    ensures relevant == Relevant(matches, settings, text)
  {
    var blacklist := settings.blacklist;
    var i := 0;
    while i < |blacklist|
      invariant 0 <= i <= |blacklist|
      invariant forall k :: 0 <= k < i ==> !matches(blacklist[k], text)
    {
      if matches(blacklist[i], text) {
        return false;
      }
      i := i + 1;
    }
    var whitelist := settings.whitelist;
    var j := 0;
    while j < |whitelist|
      invariant 0 <= j <= |whitelist|
      invariant forall k :: 0 <= k < j ==> !matches(whitelist[k], text)
    {
      if matches(whitelist[j], text) {
        return true;
      }
      j := j + 1;
    }
    return false;
  }

  /** A blacklist match vetoes the message whatever the whitelist says. */
  lemma BlacklistVetoes(matches: (string, string) -> bool, settings: Settings, text: string, p: string)
    requires p in settings.blacklist && matches(p, text)
    ensures !Relevant(matches, settings, text)
  {
  }

  /** With no whitelist patterns nothing is relevant. */
  lemma EmptyWhitelistRejects(matches: (string, string) -> bool, settings: Settings, text: string)
    requires settings.whitelist == []
    ensures !Relevant(matches, settings, text)
  {
  }

  predicate IsKeyword(w: string)
  {
    w == "buy" || w == "sell"
  }

  /** The index of the first word equal to "buy" or "sell" that has a successor, searching from `i`. */
  function FirstKeywordFrom(words: seq<string>, i: nat): (r: Option<nat>)
    requires i <= |words|
    ensures r.Some? ==> i <= r.value && r.value + 1 < |words|
    decreases |words| - i
  {
    if i + 1 >= |words| then None
    else if IsKeyword(words[i]) then Some(i)
    else FirstKeywordFrom(words, i + 1)
  }

  /** The search finds the first keyword with a successor at or after `i`, and reports none only when there is none. */
  lemma {:induction false} FirstKeywordFromSpec(words: seq<string>, i: nat)
    requires i <= |words|
    ensures var r := FirstKeywordFrom(words, i);
            r.Some? ==> IsKeyword(words[r.value]) && forall j :: i <= j < r.value ==> !IsKeyword(words[j])
    ensures FirstKeywordFrom(words, i).None? ==> forall j :: i <= j && j + 1 < |words| ==> !IsKeyword(words[j])
    decreases |words| - i
  {
    if i + 1 < |words| && !IsKeyword(words[i]) {
      FirstKeywordFromSpec(words, i + 1);
    }
  }

  function Intent(content: string): string
  {
    var c := Lower(content);
    if Contains(c, "buy") then "buy" else if Contains(c, "sell") then "sell" else "unknown"
  }

  /** `message.content.lower().split()` */
  function Words(m: RawMessage): seq<string>
  {
    Split(Lower(m.content))
  }

  /** The signal `_extract_basic_info` produces. */
  function BasicInfo(m: RawMessage): MarketSignal
  {
    NewSignal(m.id, Intent(m.content), ItemOf(Words(m)), None, Some(0.5))
  }

  /** The item of the word loop: the successor of the first keyword that has one, upper-cased. */
  function ItemOf(words: seq<string>): Option<string>
  {
    match FirstKeywordFrom(words, 0)
    case None => None
    case Some(k) => Some(Upper(words[k + 1]))
  }

  /**
   * The fallback extractor always yields a signal for the message: confidence
   * 0.5, no price, and the intent by substring test with "buy" before "sell".
   */
  lemma BasicInfoIntent(m: RawMessage)
    ensures BasicInfo(m).rawMsgId == m.id && BasicInfo(m).confidence == Some(0.5) && BasicInfo(m).price == None
    ensures Contains(Lower(m.content), "buy") ==> BasicInfo(m).intent == "buy"
    ensures !Contains(Lower(m.content), "buy") && Contains(Lower(m.content), "sell") ==> BasicInfo(m).intent == "sell"
    ensures BasicInfo(m).intent == "unknown"
            <==> !Contains(Lower(m.content), "buy") && !Contains(Lower(m.content), "sell")
  {
  }

  /**
   * The item is present exactly when some word "buy"/"sell" has a successor,
   * and then it is the first such word's successor, upper-cased.
   */
  lemma ItemOfSpec(words: seq<string>)
    ensures ItemOf(words).None? <==> forall j :: 0 <= j && j + 1 < |words| ==> !IsKeyword(words[j])
    ensures ItemOf(words).Some?
            ==> exists k :: 0 <= k && k + 1 < |words| && IsKeyword(words[k])
                            && (forall j :: 0 <= j < k ==> !IsKeyword(words[j]))
                            && ItemOf(words).value == Upper(words[k + 1])
  {
    var r := FirstKeywordFrom(words, 0);
    FirstKeywordFromSpec(words, 0);
    if r.Some? {
      var k := r.value;
      assert 0 <= k && k + 1 < |words| && IsKeyword(words[k]);
    }
  }

  /** A word that is not a keyword with a successor does not stop the search. */
  lemma FirstKeywordStep(words: seq<string>, i: nat)
    requires i < |words| && !(IsKeyword(words[i]) && i + 1 < |words|)
    ensures FirstKeywordFrom(words, i + 1) == FirstKeywordFrom(words, i)
  {
  }

  /** `_extract_basic_info`: the intent tests, then the word loop that stops at the first keyword with a successor. */
  method ExtractBasicInfo(m: RawMessage) returns (s: MarketSignal)
    ensures s == BasicInfo(m)
  {
    var content := Lower(m.content);
    var intent := "unknown";
    if Contains(content, "buy") {
      intent := "buy";
    } else if Contains(content, "sell") {
      intent := "sell";
    }
    var item := ExtractItem(Split(content));
    s := NewSignal(m.id, intent, item, None, Some(0.5));
  }

  /** The word loop of `_extract_basic_info`, which stops at the first keyword with a successor. */
  method ExtractItem(words: seq<string>) returns (item: Option<string>)
    ensures item == ItemOf(words)
  {
    item := None;
    var i := 0;
    while i < |words|
      invariant 0 <= i <= |words|
      invariant item == None
      invariant FirstKeywordFrom(words, i) == FirstKeywordFrom(words, 0)
    {
      if IsKeyword(words[i]) && i + 1 < |words| {
        item := Some(Upper(words[i + 1]));
        break;
      }
      FirstKeywordStep(words, i);
      i := i + 1;
    }
  }

  /** The signal for a message that needs manual review. */
  function ManualCheck(m: RawMessage): MarketSignal
  {
    NewSignal(m.id, "manual_check", None, None, None)
  }

  /** Python truthiness of the LLM result: present and a non-empty dictionary. */
  predicate LlmTruthy(llmResult: Option<map<string, Json>>)
  {
    llmResult.Some? && |llmResult.value| > 0
  }

  /** The signal built from an LLM result: `get("intent", "unknown")`, `get("Item Name")`, `get("Price")`, confidence 0.9. */
  function FromLlm(m: RawMessage, result: map<string, Json>): (s: MarketSignal)
    ensures s.rawMsgId == m.id && s.confidence == Some(0.9)
    ensures s.intent == StrField(result, "intent").GetOr("unknown")
    ensures s.item == StrField(result, "Item Name") && s.price == NumField(result, "Price")
  {
    NewSignal(m.id, StrField(result, "intent").GetOr("unknown"), StrField(result, "Item Name"),
              NumField(result, "Price"), Some(0.9))
  }

  /**
   * `process`, with the LLM output as a parameter: manual check when the
   * message is irrelevant or intelligence is off, the LLM's fields when its
   * result is truthy, the keyword extractor otherwise.
   */
  function Process(matches: (string, string) -> bool, settings: Settings, m: RawMessage,
                   llmResult: Option<map<string, Json>>): (s: MarketSignal)
    ensures s.rawMsgId == m.id
    ensures !Relevant(matches, settings, m.content) ==> s == ManualCheck(m)
    ensures Relevant(matches, settings, m.content) && !settings.intelligenceEnabled ==> s == ManualCheck(m)
    ensures Relevant(matches, settings, m.content) && settings.intelligenceEnabled && LlmTruthy(llmResult)
            ==> s == FromLlm(m, llmResult.value)
    ensures Relevant(matches, settings, m.content) && settings.intelligenceEnabled && !LlmTruthy(llmResult)
            ==> s == BasicInfo(m)
  {
    if !Relevant(matches, settings, m.content) then ManualCheck(m)
    else if !settings.intelligenceEnabled then ManualCheck(m)
    else if LlmTruthy(llmResult) then FromLlm(m, llmResult.value)
    else BasicInfo(m)
  }

  /** The LLM output matters only for a relevant message with intelligence enabled. */
  lemma LlmConsultedOnlyWhenRelevantAndEnabled(matches: (string, string) -> bool, settings: Settings,
                                               m: RawMessage, r1: Option<map<string, Json>>,
                                               r2: Option<map<string, Json>>)
    requires !Relevant(matches, settings, m.content) || !settings.intelligenceEnabled
    ensures Process(matches, settings, m, r1) == Process(matches, settings, m, r2) == ManualCheck(m)
  {
  }

  /** The confidence tells the three outcomes apart: none for manual check, 0.9 for the LLM, 0.5 for the fallback. */
  lemma ConfidenceIdentifiesBranch(matches: (string, string) -> bool, settings: Settings,
                                   m: RawMessage, llmResult: Option<map<string, Json>>)
    ensures var s := Process(matches, settings, m, llmResult);
            && (s.confidence == None <==> !Relevant(matches, settings, m.content) || !settings.intelligenceEnabled)
            && (s.confidence == Some(0.9) <==> Relevant(matches, settings, m.content) && settings.intelligenceEnabled
                                                && LlmTruthy(llmResult))
            && (s.confidence == Some(0.5) <==> Relevant(matches, settings, m.content) && settings.intelligenceEnabled
                                                && !LlmTruthy(llmResult))
  {
  }

  /** Neither an absent nor an empty LLM result loses the message: the fallback still yields a signal. */
  lemma EmptyLlmResultFallsBack(matches: (string, string) -> bool, settings: Settings, m: RawMessage)
    requires Relevant(matches, settings, m.content) && settings.intelligenceEnabled
    ensures Process(matches, settings, m, None) == Process(matches, settings, m, Some(map[])) == BasicInfo(m)
  {
  }

  /** How `process` as written ends: with a signal, or with the exception it raises. */
  datatype Outcome = Returned(signal: MarketSignal) | RaisedTypeError

  /**
   * `process` as the source writes it: it calls `analyze(message.content)`,
   * but `analyze` requires `api_key`, `endpoint_url` and `model` as well, so
   * the call raises `TypeError` whenever it is reached.
   */
  function ProcessAsWritten(matches: (string, string) -> bool, settings: Settings, m: RawMessage): (o: Outcome)
    ensures o.Returned? ==> o.signal == ManualCheck(m)
  {
    if !Relevant(matches, settings, m.content) then Returned(ManualCheck(m))
    else if !settings.intelligenceEnabled then Returned(ManualCheck(m))
    else RaisedTypeError
  }

  /**
   * As written, every relevant message under the default (enabled) settings
   * raises instead of producing a signal; `Process`, which takes the LLM
   * output as a parameter, agrees with it wherever it returns.
   */
  lemma AsWrittenRaisesOnEveryRelevantMessage(matches: (string, string) -> bool, settings: Settings, m: RawMessage,
                                              llmResult: Option<map<string, Json>>)
    ensures ProcessAsWritten(matches, settings, m).RaisedTypeError?
            <==> Relevant(matches, settings, m.content) && settings.intelligenceEnabled
    ensures ProcessAsWritten(matches, settings, m).Returned?
            ==> ProcessAsWritten(matches, settings, m).signal == Process(matches, settings, m, llmResult)
  {
  }

  /** A concrete case: the docstring's "Buy 100 shares of AAPL at $150" with a search that finds "\b(buy|sell)\b". */
  lemma AsWrittenRaisesOnDocstringExample()
    ensures var matches := (p: string, t: string) => p == @"\b(buy|sell)\b";
            var m := RawMessage("1", "Buy 100 shares of AAPL at $150", "trader1", Some("trading_room"),
                                DateTimes.DateTime(2023, 1, 1, 10, 0, 0, 0));
            ProcessAsWritten(matches, DefaultSettings(), m) == RaisedTypeError
  {
    var matches := (p: string, t: string) => p == @"\b(buy|sell)\b";
    var s := DefaultSettings();
    assert s.whitelist[0] == @"\b(buy|sell)\b";
    assert matches(s.whitelist[0], "Buy 100 shares of AAPL at $150");
    assert AnyMatch(matches, s.whitelist, "Buy 100 shares of AAPL at $150");
    assert !AnyMatch(matches, s.blacklist, "Buy 100 shares of AAPL at $150") by {
      forall p | p in s.blacklist ensures !matches(p, "Buy 100 shares of AAPL at $150") {
        assert p == s.blacklist[0] || p == s.blacklist[1];
      }
    }
  }
}
