/**
 * The decision and formatting rules inside ChatController: what a posted
 * text does (create a channel or post a message), when the assistant
 * answers, which request kind a prompt is routed to, the markdown list of
 * search results, the personalised user list, the fallback title and
 * keywords of a summary, and the clipboard title. Handlers, broadcasts and
 * the executor are not modelled.
 */
module ChatRules {
  import opened Common
  import opened JavaLang
  import opened ChatModel

  // ---------------------------------------------------------------------
  // sendMessage: the '#' rule.

  /** What sendMessage does with a request. */
  datatype SendAction =
    | Rejected                   // a field is missing or the content is blank
    | CreateChannel(name: string)
    | Post(content: string)      // handed to ChatService.sendMessage

  /** The channel name created, or the content posted, is trimmed and non-empty. */
  function SendDecision(channelId: Option<string>, userId: Option<string>, content: Option<string>): (a: SendAction)
    ensures a.CreateChannel? ==> |a.name| > 0 && !IsTrimmable(a.name[0]) && !IsTrimmable(a.name[|a.name| - 1])
    ensures a.Post? ==> |a.content| > 0 && !IsTrimmable(a.content[0]) && !IsTrimmable(a.content[|a.content| - 1])
  {
    if channelId.None? || userId.None? || content.None? || IsBlank(content.value) then Rejected
    else
      var trimmed := Trim(content.value);
      NonBlankTrimsVisible(content.value);
      if StartsWith(trimmed, "#") && !IsBlank(trimmed[1..]) then
        NonBlankTrimsVisible(trimmed[1..]);
        CreateChannel(Trim(trimmed[1..]))
      else Post(trimmed)
  }

  /**
   * A request is rejected exactly when a field is missing or the content is
   * blank; a channel is created exactly when the trimmed content is '#'
   * followed by something non-blank, and its name is that remainder,
   * trimmed and non-empty; anything else is posted trimmed and non-empty.
   */
  lemma SendDecisionRules(channelId: Option<string>, userId: Option<string>, content: Option<string>)
    ensures var a := SendDecision(channelId, userId, content);
      && (a.Rejected? <==> channelId.None? || userId.None? || content.None? || IsBlank(content.value))
      && (a.CreateChannel? <==> !a.Rejected? && StartsWith(Trim(content.value), "#") && !IsBlank(Trim(content.value)[1..]))
      && (a.CreateChannel? ==> a.name != "" && a.name == Trim(Trim(content.value)[1..]))
      && (a.Post? ==> a.content == Trim(content.value) && a.content != "")
  {
  }

  /** Content that trims to a bare "#" is posted as an ordinary message. */
  lemma BareHashIsPosted(channelId: string, userId: string, content: string)
    requires Trim(content) == "#"
    ensures SendDecision(Some(channelId), Some(userId), Some(content)) == Post("#")
  {
    assert "#"[1..] == "";
  }

  /** Content that trims to "#name", with a name that starts and ends visibly, creates channel "name". */
  lemma HashNameCreatesChannel(channelId: string, userId: string, content: string, name: string)
    requires |name| > 0 && !IsTrimmable(name[0]) && !IsTrimmable(name[|name| - 1])
    requires Trim(content) == "#" + name
    ensures SendDecision(Some(channelId), Some(userId), Some(content)) == CreateChannel(name)
  {
    assert ("#" + name)[1..] == name;
    TrimOfTrimmed(name);
  }

  // ---------------------------------------------------------------------
  // The assistant trigger and the prompt.

  const MENTION: string := "@eking"
  const DEFAULT_PROMPT: string := "Hello! How can I help you?"

  /**
   * The assistant answers when the raw content mentions it or the channel is
   * private. `channelIsPrivate` is None when the channel does not exist.
   */
  predicate TriggersAI(content: string, channelIsPrivate: Option<bool>)
    ensures channelIsPrivate == Some(true) ==> TriggersAI(content, channelIsPrivate)
    ensures '@' !in content && channelIsPrivate != Some(true) ==> !TriggersAI(content, channelIsPrivate)
  {
    NoAtNoMention(content);
    Contains(content, MENTION) || channelIsPrivate == Some(true)
  }

  /** A mention anywhere triggers the assistant, whatever the channel. */
  lemma MentionTriggersAI(before: string, after: string, channelIsPrivate: Option<bool>)
    ensures TriggersAI(before + MENTION + after, channelIsPrivate)
  {
    var s := before + MENTION + after;
    assert s[|before|..|before| + |MENTION|] == MENTION;
    assert OccursAt(s, MENTION, |before|);
    ContainsIffOccurs(s, MENTION);
  }

  /** Text without an '@' holds no mention. */
  lemma NoAtNoMention(content: string)
    ensures '@' !in content ==> !Contains(content, MENTION)
  {
    if '@' !in content {
      forall i | 0 <= i && i + |MENTION| <= |content|
        ensures !OccursAt(content, MENTION, i)
      {
        assert content[i..i + |MENTION|][0] == content[i];
      }
      ContainsIffOccurs(content, MENTION);
    }
  }

  /** The prompt: the content with every mention removed, trimmed, or a greeting when nothing is left. */
  function Prompt(content: string): (p: string)
    ensures p != "" && !IsTrimmable(p[0]) && !IsTrimmable(p[|p| - 1])
  {
    var stripped := Trim(Replace(content, MENTION, ""));
    if stripped == "" then DEFAULT_PROMPT else stripped
  }

  /** A bare mention becomes the greeting; text without an '@' is only trimmed. */
  lemma PromptRules(content: string)
    ensures Prompt(MENTION) == DEFAULT_PROMPT
    ensures '@' !in content && !IsBlank(content) ==> Prompt(content) == Trim(content)
  {
    assert StartsWith(MENTION, MENTION);
    assert Replace(MENTION, MENTION, "") == "" by {
      assert MENTION[|MENTION|..] == "";
    }
    if '@' !in content && !IsBlank(content) {
      ReplaceWithoutTargetHead(content, MENTION, "");
    }
  }

  // ---------------------------------------------------------------------
  // Routing a prompt.

  /**
   * The last two search words are the Chinese words for "find" and "search"
   * as they appear in the source file after a wrong decoding: each starts
   * with U+00CA.
   */
  const SEARCH_WORD_MISDECODED_1: string := "\U{CA}\U{FC}\U{2022}\U{CA}\U{E2}\U{E6}"
  const SEARCH_WORD_MISDECODED_2: string := "\U{CA}\U{EA}\U{FA}\U{C1}\U{A5}\U{A2}"

  predicate IsSummaryRequest(prompt: string)
  {
    var lower := ToLower(prompt);
    Contains(lower, "summary") || Contains(lower, "summarize") || Contains(lower, "summarise")
  }

  predicate IsSearchRequest(prompt: string)
  {
    var lower := ToLower(prompt);
    Contains(lower, "search") || Contains(lower, "find") || Contains(lower, "look for")
      || Contains(lower, SEARCH_WORD_MISDECODED_1) || Contains(lower, SEARCH_WORD_MISDECODED_2)
  }

  datatype Route = SummaryRoute | SearchRoute | ChatRoute

  /** Summary needs a summary word and no search word; a search word alone decides search. */
  function RouteOf(prompt: string): (r: Route)
    ensures r == SearchRoute <==> IsSearchRequest(prompt)
    ensures r == SummaryRoute <==> IsSummaryRequest(prompt) && !IsSearchRequest(prompt)
    ensures r == ChatRoute <==> !IsSummaryRequest(prompt) && !IsSearchRequest(prompt)
  {
    if IsSummaryRequest(prompt) && !IsSearchRequest(prompt) then SummaryRoute
    else if IsSearchRequest(prompt) then SearchRoute
    else ChatRoute
  }

  /** Lower-casing never yields U+00CA: it is itself an upper-case letter. */
  lemma LowerCharIsNeverUpperE(c: char)
    ensures LowerChar(c) != '\U{CA}'
  {
  }

  /** The misdecoded words start with U+00CA, so they can never occur in a lower-cased prompt. */
  lemma MisdecodedSearchWordsNeverMatch(prompt: string)
    ensures !Contains(ToLower(prompt), SEARCH_WORD_MISDECODED_1)
    ensures !Contains(ToLower(prompt), SEARCH_WORD_MISDECODED_2)
  {
    var lower := ToLower(prompt);
    ContainsIffOccurs(lower, SEARCH_WORD_MISDECODED_1);
    ContainsIffOccurs(lower, SEARCH_WORD_MISDECODED_2);
    if exists i :: OccursAt(lower, SEARCH_WORD_MISDECODED_1, i) {
      var i :| OccursAt(lower, SEARCH_WORD_MISDECODED_1, i);
      assert lower[i..i + 6][0] == '\U{CA}';
      LowerCharIsNeverUpperE(prompt[i]);
    }
    if exists i :: OccursAt(lower, SEARCH_WORD_MISDECODED_2, i) {
      var i :| OccursAt(lower, SEARCH_WORD_MISDECODED_2, i);
      assert lower[i..i + 6][0] == '\U{CA}';
      LowerCharIsNeverUpperE(prompt[i]);
    }
  }

  /**
   * In effect a prompt goes to search exactly when its lower-cased form
   * holds "search", "find" or "look for", and to summary exactly when it
   * holds a summary word and none of those.
   */
  lemma RouteByEnglishWords(prompt: string)
    ensures var lower := ToLower(prompt);
      var search := Contains(lower, "search") || Contains(lower, "find") || Contains(lower, "look for");
      && (RouteOf(prompt) == SearchRoute <==> search)
      && (RouteOf(prompt) == SummaryRoute <==> IsSummaryRequest(prompt) && !search)
  {
    MisdecodedSearchWordsNeverMatch(prompt);
  }

  /** Any capitalisation of "Search" in the prompt routes it to search, even next to "summary". */
  lemma CapitalisedSearchRoutesToSearch(before: string, after: string)
    ensures RouteOf(before + "Search" + after) == SearchRoute
  {
    var p := before + "Search" + after;
    ToLowerAppend(before + "Search", after);
    ToLowerAppend(before, "Search");
    assert ToLower("Search") == "search";
    var lower := ToLower(p);
    assert lower == ToLower(before) + "search" + ToLower(after);
    assert lower[|before|..|before| + 6] == "search";
    assert OccursAt(lower, "search", |before|);
    ContainsIffOccurs(lower, "search");
  }

  // ---------------------------------------------------------------------
  // Summary documents and their fallback title and keywords.

  const DEFAULT_SUMMARY_TITLE: string := "AI Summary"
  const MIN_KEYWORD_LENGTH: nat := 3

  /**
   * A stored summary. `timestamp` is the text LocalDateTime.toString gives
   * for its creation time.
   */
  datatype SummaryDocument = SummaryDocument(
    id: string,
    title: string,
    content: string,
    keywords: Option<seq<string>>,
    channelId: string,
    userId: string,
    timestamp: string)

  /** `s.split("\n")` has no element exactly when s is non-empty and all line feeds. */
  predicate OnlyLineFeeds(s: string)
  {
    |s| > 0 && forall i :: 0 <= i < |s| ==> s[i] == '\n'
  }

  /** The text before the first line feed (all of s if there is none): element 0 of the split. */
  function FirstLine(s: string): string
  {
    var at := IndexOf(s, "\n");
    if at == -1 then s else s[..at]
  }

  /** The regular expression ^#+ removes the leading hashes. */
  function DropHashes(s: string): (r: string)
    ensures |r| <= |s| && r == s[|s| - |r|..]
    ensures |r| > 0 ==> r[0] != '#'
  {
    if |s| > 0 && s[0] == '#' then DropHashes(s[1..]) else s
  }

  /** \s* at the start removes the leading whitespace. */
  function DropRegexSpaces(s: string): (r: string)
    ensures |r| <= |s| && r == s[|s| - |r|..]
    ensures |r| > 0 ==> !IsRegexSpace(r[0])
  {
    if |s| > 0 && IsRegexSpace(s[0]) then DropRegexSpaces(s[1..]) else s
  }

  /** The title parseSummaryResponse takes from the first line. */
  function SummaryTitle(aiResponse: string): string
  {
    if OnlyLineFeeds(aiResponse) then DEFAULT_SUMMARY_TITLE
    else
      var firstLine := Trim(FirstLine(aiResponse));
      if StartsWith(firstLine, "#") then Trim(DropRegexSpaces(DropHashes(firstLine))) else firstLine
  }

  /** The content: what follows the heading line, trimmed, when the first line is a heading. */
  function SummaryContent(aiResponse: string): string
  {
    if OnlyLineFeeds(aiResponse) then aiResponse
    else
      var firstLine := Trim(FirstLine(aiResponse));
      if StartsWith(firstLine, "#") then Trim(aiResponse[IndexOf(aiResponse, "\n") + 1..]) else aiResponse
  }

  /** The first line feed after a prefix free of line feeds is found right after that prefix. */
  lemma FirstLineFeedAfter(prefix: string, rest: string)
    requires '\n' !in prefix
    ensures IndexOf(prefix + "\n" + rest, "\n") == |prefix|
  {
    var s := prefix + "\n" + rest;
    var k := |prefix|;
    assert OccursAt(s, "\n", k) by {
      assert s[k..k + 1] == "\n";
    }
    forall i | 0 <= i < k
      ensures !OccursAt(s, "\n", i)
    {
      assert s[i..i + 1][0] == s[i] == prefix[i];
    }
  }

  lemma DropOneHash(s: string)
    requires |s| >= 2 && s[0] == '#' && s[1] != '#'
    ensures DropHashes(s) == s[1..]
  {
  }

  lemma DropOneSpace(s: string)
    requires |s| >= 2 && IsRegexSpace(s[0]) && !IsRegexSpace(s[1])
    ensures DropRegexSpaces(s) == s[1..]
  {
  }

  /** The regular expressions strip "# " from a heading, leaving a title that starts visibly. */
  lemma StripHeadingMarker(title: string)
    requires |title| > 0 && !IsTrimmable(title[0])
    ensures DropRegexSpaces(DropHashes("# " + title)) == title
  {
    var marked := "# " + title;
    assert marked[0] == '#' && marked[1] == ' ' && marked[2] == title[0];
    DropOneHash(marked);
    var spaced := marked[1..];
    DropOneSpace(spaced);
    assert spaced[1..] == title;
  }

  /** A markdown heading line "# title" gives that title, and the rest of the text is the content. */
  lemma HeadingTitle(title: string, body: string)
    requires |title| > 0 && !IsTrimmable(title[0]) && !IsTrimmable(title[|title| - 1])
    requires '\n' !in title
    ensures SummaryTitle("# " + title + "\n" + body) == title
    ensures SummaryContent("# " + title + "\n" + body) == Trim(body)
  {
    var line := "# " + title;
    var s := line + "\n" + body;
    HeadingLine(title, body);
    StripHeadingMarker(title);
    TrimOfTrimmed(title);
    assert s[|line| + 1..] == body;
  }

  /** The first line of "# title\n..." is the heading line, already trimmed. */
  lemma HeadingLine(title: string, body: string)
    requires |title| > 0 && !IsTrimmable(title[0]) && !IsTrimmable(title[|title| - 1])
    requires '\n' !in title
    ensures var s := "# " + title + "\n" + body;
      && !OnlyLineFeeds(s)
      && IndexOf(s, "\n") == |title| + 2
      && Trim(FirstLine(s)) == "# " + title
      && StartsWith("# " + title, "#")
  {
    var line := "# " + title;
    var s := line + "\n" + body;
    FirstLineFeedAfter(line, body);
    assert s[0] == '#';
    assert s[..|line|] == line;
    TrimOfTrimmed(line);
  }

  /** A response of nothing but line feeds splits into no lines, so the title stays the default. */
  lemma LineFeedsOnlyKeepDefaultTitle(n: nat)
    requires n > 0
    ensures SummaryTitle(seq(n, _ => '\n')) == DEFAULT_SUMMARY_TITLE
  {
  }

  predicate IsKeywordChar(c: char)
  {
    'a' <= c <= 'z' || '0' <= c <= '9'
  }

  /** `word.toLowerCase().replaceAll("[^a-z0-9]", "")` */
  function KeywordOf(word: string): (k: string)
    ensures |k| <= |word|
    ensures forall i :: 0 <= i < |k| ==> IsKeywordChar(k[i])
  {
    var lower := ToLower(word);
    KeepKeywordChars(lower)
  }

  function KeepKeywordChars(s: string): (r: string)
    ensures |r| <= |s|
    ensures forall i :: 0 <= i < |r| ==> IsKeywordChar(r[i])
  {
    if |s| == 0 then ""
    else (if IsKeywordChar(s[0]) then [s[0]] else "") + KeepKeywordChars(s[1..])
  }

  /**
   * The fallback keywords: one per title word longer than three chars, in
   * order, each lower-cased and reduced to [a-z0-9] (so it may be shorter
   * than four chars, or empty).
   */
  function FallbackKeywords(words: seq<string>): (r: seq<string>)
    ensures |r| <= |words|
    ensures forall k :: 0 <= k < |r| ==> forall i :: 0 <= i < |r[k]| ==> IsKeywordChar(r[k][i])
    ensures forall k :: 0 <= k < |words| && |words[k]| > MIN_KEYWORD_LENGTH ==> KeywordOf(words[k]) in r
  {
    if |words| == 0 then []
    else
      var init := FallbackKeywords(words[..|words| - 1]);
      var last := words[|words| - 1];
      if |last| > MIN_KEYWORD_LENGTH then init + [KeywordOf(last)] else init
  }

  /** Words of at most three chars never contribute a keyword. */
  lemma {:induction false} ShortWordsGiveNoKeywords(words: seq<string>)
    requires forall k :: 0 <= k < |words| ==> |words[k]| <= MIN_KEYWORD_LENGTH
    ensures FallbackKeywords(words) == []
    decreases |words|
  {
    if |words| > 0 {
      ShortWordsGiveNoKeywords(words[..|words| - 1]);
    }
  }

  /** Stripping can shrink a long word to nothing: "----" yields the empty keyword. */
  lemma PunctuationWordGivesEmptyKeyword()
    ensures FallbackKeywords(["----"]) == [""]
  {
    assert ToLower("----") == "----";
    assert KeepKeywordChars("----") == "";
  }

  /**
   * parseSummaryResponse. `explicitKeywords` is what the "Keywords:" line
   * gave, split on ',' and trimmed (empty when there is no such line);
   * `id` and `now` stand for the random UUID and the creation time.
   */
  function ParseSummaryResponse(aiResponse: string, explicitKeywords: seq<string>,
                                channelId: string, userId: string, id: string, now: string): (d: SummaryDocument)
    ensures d.title == SummaryTitle(aiResponse) && d.content == SummaryContent(aiResponse)
    ensures d.keywords.Some? && |d.keywords.value| > 0 ==> explicitKeywords != [] || |d.keywords.value| <= |Words(d.title)|
    ensures explicitKeywords != [] ==> d.keywords == Some(explicitKeywords)
    ensures d.channelId == channelId && d.userId == userId
  {
    var title := SummaryTitle(aiResponse);
    var keywords := if explicitKeywords != [] then explicitKeywords else FallbackKeywords(Words(title));
    SummaryDocument(id, title, SummaryContent(aiResponse), Some(keywords), channelId, userId, now)
  }

  // ---------------------------------------------------------------------
  // formatSearchResults.

  const RESULTS_HEADING: string := "\U{F8FF}\U{FC}\U{EE}\U{E7} **Search Results for: "
  const SEPARATOR: string := "---\n\n"
  const QUERY_END: string := "**\n\n"
  const FOUND: string := "Found "
  const MATCHING: string := " matching "
  const COLON_END: string := ":\n\n"
  const ENTRY_START: string := "### "
  const NUMBER_END: string := ". "
  const KEYWORDS_LABEL: string := "**Keywords:** "
  const KEYWORD_SEPARATOR: string := ", "
  const CREATED_LABEL: string := "*Created: "
  const CREATED_END: string := "*\n\n"
  const PARAGRAPH_END: string := "\n\n"
  const ELLIPSIS: string := "..."
  const SNIPPET_LENGTH: nat := 300

  /** The content shown for a result: at most 300 chars, then "..." if it was cut. */
  function Snippet(content: string): (r: string)
    ensures |content| <= SNIPPET_LENGTH ==> r == content
    ensures |content| > SNIPPET_LENGTH ==> |r| == SNIPPET_LENGTH + 3 && StartsWith(r, content[..SNIPPET_LENGTH])
    ensures |content| > SNIPPET_LENGTH ==> EndsWith(r, ELLIPSIS)
  {
    if |content| > SNIPPET_LENGTH then content[..SNIPPET_LENGTH] + ELLIPSIS else content
  }

  /** String.join(separator, parts) */
  function Join(separator: string, parts: seq<string>): string
  {
    if |parts| == 0 then ""
    else if |parts| == 1 then parts[0]
    else Join(separator, parts[..|parts| - 1]) + separator + parts[|parts| - 1]
  }

  function Noun(n: nat): string
  {
    if n == 1 then "summary" else "summaries"
  }

  function ResultsHeader(query: string, n: nat): string
  {
    RESULTS_HEADING + query + QUERY_END + FOUND + NatToString(n) + MATCHING + Noun(n) + COLON_END + SEPARATOR
  }

  /** The "### n. title" line and its blank line. */
  function AppendHeading(sb: string, number: nat, title: string): string
  {
    sb + ENTRY_START + NatToString(number) + NUMBER_END + title + PARAGRAPH_END
  }

  function AppendParagraph(sb: string, text: string): string
  {
    sb + text + PARAGRAPH_END
  }

  /** The keywords line, only for a non-empty keyword list. */
  function AppendKeywords(sb: string, keywords: Option<seq<string>>): string
  {
    if keywords.Some? && |keywords.value| > 0
    then sb + KEYWORDS_LABEL + Join(KEYWORD_SEPARATOR, keywords.value) + PARAGRAPH_END
    else sb
  }

  /** The "*Created: ...*" line, which ends the entry with '*' and a blank line. */
  function AppendDate(sb: string, timestamp: string): string
  {
    sb + CREATED_LABEL + timestamp + CREATED_END
  }

  /** Each append step keeps what was there; the date line ends the entry with "*\n\n". */
  lemma AppendStepsKeepPrefix(sb: string, number: nat, doc: SummaryDocument)
    ensures var headed := AppendHeading(sb, number, doc.title);
      |headed| > |sb| && headed[..|sb|] == sb
    ensures var headed := AppendHeading(sb, number, doc.title);
      var withContent := AppendParagraph(headed, Snippet(doc.content));
      |withContent| > |headed| && withContent[..|headed|] == headed
    ensures var withContent := AppendParagraph(AppendHeading(sb, number, doc.title), Snippet(doc.content));
      var withKeywords := AppendKeywords(withContent, doc.keywords);
      |withKeywords| >= |withContent| && withKeywords[..|withContent|] == withContent
    ensures var withKeywords := AppendKeywords(AppendParagraph(AppendHeading(sb, number, doc.title), Snippet(doc.content)), doc.keywords);
      var withDate := AppendDate(withKeywords, doc.timestamp);
      |withDate| >= |withKeywords| + 3 && withDate[..|withKeywords|] == withKeywords && withDate[|withDate| - 3..] == CREATED_END
  {
    var headed := AppendHeading(sb, number, doc.title);
    var withContent := AppendParagraph(headed, Snippet(doc.content));
    var withKeywords := AppendKeywords(withContent, doc.keywords);
    var withDate := AppendDate(withKeywords, doc.timestamp);
    assert headed[..|sb|] == sb;
    assert withContent[..|headed|] == headed;
    assert withKeywords[..|withContent|] == withContent;
    assert withDate[..|withKeywords|] == withKeywords;
    assert withDate[|withDate| - 3..] == CREATED_END;
  }

  /**
   * `sb` after the loop body has appended result number `number` of
   * `total`, in the order the StringBuilder receives the pieces: the
   * separator follows every entry but the last.
   */
  function AppendEntry(sb: string, number: nat, total: nat, doc: SummaryDocument): string
  {
    var withDate := AppendDate(AppendKeywords(AppendParagraph(AppendHeading(sb, number, doc.title), Snippet(doc.content)), doc.keywords), doc.timestamp);
    if number < total then withDate + SEPARATOR else withDate
  }

  /** The header followed by the first `i` results. */
  function ResultsTextUpTo(query: string, results: seq<SummaryDocument>, i: nat): string
    requires i <= |results|
  {
    if i == 0 then ResultsHeader(query, |results|)
    else AppendEntry(ResultsTextUpTo(query, results, i - 1), i, |results|, results[i - 1])
  }

  /** formatSearchResults' text: with results, it ends with the last entry's date line. */
  function SearchResultsText(query: string, results: seq<SummaryDocument>): (r: string)
    ensures |results| > 0 ==> EndsWith(r, CREATED_END)
  {
    if |results| == 0 then ResultsTextUpTo(query, results, 0)
    else
      AppendStepsKeepPrefix(ResultsTextUpTo(query, results, |results| - 1), |results|, results[|results| - 1]);
      ResultsTextUpTo(query, results, |results|)
  }

  /** formatSearchResults: the StringBuilder loop with its running counter. */
  method FormatSearchResults(query: string, results: seq<SummaryDocument>) returns (text: string)
    ensures text == SearchResultsText(query, results)
  {
    var sb := RESULTS_HEADING + query + QUERY_END;
    sb := sb + FOUND + NatToString(|results|) + MATCHING;
    sb := sb + Noun(|results|) + COLON_END;
    sb := sb + SEPARATOR;
    var count := 1;
    var i := 0;
    while i < |results|
      invariant 0 <= i <= |results| && count == i + 1
      invariant sb == ResultsTextUpTo(query, results, i)
    {
      var doc := results[i];
      ghost var before := sb;
      sb := sb + ENTRY_START + NatToString(count) + NUMBER_END + doc.title + PARAGRAPH_END;
      assert sb == AppendHeading(before, count, doc.title);
      var content := doc.content;
      if |content| > SNIPPET_LENGTH {
        content := content[..SNIPPET_LENGTH] + ELLIPSIS;
      }
      sb := sb + content + PARAGRAPH_END;
      assert sb == AppendParagraph(AppendHeading(before, count, doc.title), Snippet(doc.content));
      ghost var withContent := sb;
      if doc.keywords.Some? && |doc.keywords.value| > 0 {
        sb := sb + KEYWORDS_LABEL + Join(KEYWORD_SEPARATOR, doc.keywords.value) + PARAGRAPH_END;
      }
      assert sb == AppendKeywords(withContent, doc.keywords);
      sb := sb + CREATED_LABEL + doc.timestamp + CREATED_END;
      if count < |results| {
        sb := sb + SEPARATOR;
      }
      count := count + 1;
      i := i + 1;
    }
    text := sb;
  }

  /**
   * An entry extends the text so far; it ends with a separator exactly
   * when it is not the last one, and otherwise with the "*" that closes
   * its date line.
   */
  lemma AppendEntryShape(sb: string, number: nat, total: nat, doc: SummaryDocument)
    ensures var r := AppendEntry(sb, number, total, doc);
      && |r| > |sb| && r[..|sb|] == sb
      && (number < total <==> EndsWith(r, SEPARATOR))
  {
    var headed := AppendHeading(sb, number, doc.title);
    var withContent := AppendParagraph(headed, Snippet(doc.content));
    var withKeywords := AppendKeywords(withContent, doc.keywords);
    var withDate := AppendDate(withKeywords, doc.timestamp);
    AppendStepsKeepPrefix(sb, number, doc);
    assert withDate[..|sb|] == sb by {
      assert withDate[..|headed|] == withContent[..|headed|] by {
        assert withDate[..|withContent|] == withKeywords[..|withContent|] == withContent;
      }
    }
    assert withDate[|withDate| - 3] == '*' by {
      assert withDate[|withDate| - 3..][0] == CREATED_END[0];
    }
    var r := AppendEntry(sb, number, total, doc);
    if number >= total {
      assert r[|r| - |SEPARATOR|..][2] == '*';
    } else {
      assert r[..|withDate|] == withDate;
    }
  }

  /** Being a prefix is transitive. */
  lemma PrefixOfPrefix(a: string, b: string, c: string)
    requires |a| <= |b| <= |c| && b[..|a|] == a && c[..|b|] == b
    ensures c[..|a|] == a
  {
    assert c[..|a|] == c[..|b|][..|a|];
  }

  /** The text up to any entry still begins with the header. */
  lemma {:induction false} ResultsTextKeepsHeader(query: string, results: seq<SummaryDocument>, i: nat)
    requires i <= |results|
    ensures var h := ResultsTextUpTo(query, results, 0);
      var t := ResultsTextUpTo(query, results, i);
      |h| <= |t| && t[..|h|] == h
    decreases i
  {
    if i > 0 {
      var prev := ResultsTextUpTo(query, results, i - 1);
      ResultsTextKeepsHeader(query, results, i - 1);
      AppendEntryShape(prev, i, |results|, results[i - 1]);
      PrefixOfPrefix(ResultsTextUpTo(query, results, 0), prev, ResultsTextUpTo(query, results, i));
    }
  }

  /**
   * The text starts with the header, whose noun is singular exactly for
   * one result; with no results the text is the header alone, which ends
   * with a separator.
   */
  lemma SearchResultsHeader(query: string, results: seq<SummaryDocument>)
    ensures StartsWith(SearchResultsText(query, results), ResultsHeader(query, |results|))
    ensures Noun(|results|) == "summary" <==> |results| == 1
    ensures |results| == 0 ==> SearchResultsText(query, results) == ResultsHeader(query, 0)
    ensures |results| == 0 ==> EndsWith(SearchResultsText(query, results), SEPARATOR)
  {
    ResultsTextKeepsHeader(query, results, |results|);
  }

  /**
   * Every entry but the last is followed by a separator; a non-empty result
   * list does not end with one.
   */
  lemma SearchResultsSeparators(query: string, results: seq<SummaryDocument>)
    ensures |results| > 0 ==> !EndsWith(SearchResultsText(query, results), SEPARATOR)
    ensures forall i :: 0 < i < |results| ==> EndsWith(ResultsTextUpTo(query, results, i), SEPARATOR)
  {
    if |results| > 0 {
      AppendEntryShape(ResultsTextUpTo(query, results, |results| - 1), |results|, |results|, results[|results| - 1]);
    }
    forall i | 0 < i < |results|
      ensures EndsWith(ResultsTextUpTo(query, results, i), SEPARATOR)
    {
      AppendEntryShape(ResultsTextUpTo(query, results, i - 1), i, |results|, results[i - 1]);
    }
  }

  // ---------------------------------------------------------------------
  // buildPersonalizedUserList.

  /** One element of the personalised list; the joinedAt text is formatted from the timestamp. */
  datatype UserEntry = UserEntry(id: string, nickname: string, joinedAt: Timestamp, online: bool, isCurrent: bool)

  function EntryOf(u: User, isCurrent: bool): UserEntry
  {
    UserEntry(u.id, u.nickname, u.joinedAt, u.online, isCurrent)
  }

  /** The index of the first user with this id, or -1: the stream's findFirst. */
  function FirstIndexWithId(users: seq<User>, id: string): (r: int)
    ensures -1 <= r < |users|
    ensures r >= 0 ==> users[r].id == id
    ensures forall k :: 0 <= k < |users| && (r == -1 || k < r) ==> users[k].id != id
  {
    if |users| == 0 then -1
    else if users[0].id == id then 0
    else
      var rest := FirstIndexWithId(users[1..], id);
      if rest == -1 then -1 else rest + 1
  }

  /** The entries for the users whose id differs, unmarked, in input order. */
  function OtherEntries(users: seq<User>, id: string): (r: seq<UserEntry>)
    ensures |r| <= |users|
    ensures forall k :: 0 <= k < |r| ==> r[k].id != id && !r[k].isCurrent
  {
    if |users| == 0 then []
    else
      var init := OtherEntries(users[..|users| - 1], id);
      var last := users[|users| - 1];
      if last.id != id then init + [EntryOf(last, false)] else init
  }

  /** A scan stopped at i, past only non-matching ids, has found the first match, or none at the end. */
  lemma FirstIndexFromScan(users: seq<User>, id: string, i: nat)
    requires i <= |users| && (i == |users| || users[i].id == id)
    requires forall k :: 0 <= k < i ==> users[k].id != id
    ensures FirstIndexWithId(users, id) == if i < |users| then i else -1
  {
  }

  /** The others among the first j + 1 users: those among the first j, then user j unless it matches. */
  lemma OtherEntriesStep(users: seq<User>, id: string, j: nat)
    requires j < |users|
    ensures OtherEntries(users[..j + 1], id)
         == OtherEntries(users[..j], id) + (if users[j].id != id then [EntryOf(users[j], false)] else [])
  {
    assert users[..j + 1][..j] == users[..j] && users[..j + 1][j] == users[j];
  }

  /** When no user has the id, the others are every user, unmarked, in input order. */
  lemma {:induction false} OtherEntriesAllDiffer(users: seq<User>, id: string)
    requires forall k :: 0 <= k < |users| ==> users[k].id != id
    ensures |OtherEntries(users, id)| == |users|
    ensures forall k :: 0 <= k < |users| ==> OtherEntries(users, id)[k] == EntryOf(users[k], false)
    decreases |users|
  {
    if |users| > 0 {
      var init := users[..|users| - 1];
      assert forall k :: 0 <= k < |init| ==> init[k] == users[k];
      OtherEntriesAllDiffer(init, id);
    }
  }

  /** Every user whose id differs has its entry among the others. */
  lemma {:induction false} OtherEntriesComplete(users: seq<User>, id: string, k: nat)
    requires k < |users| && users[k].id != id
    ensures EntryOf(users[k], false) in OtherEntries(users, id)
    decreases |users|
  {
    var init := users[..|users| - 1];
    if k < |users| - 1 {
      assert init[k] == users[k];
      OtherEntriesComplete(init, id, k);
    }
  }

  function PersonalizedUserList(users: seq<User>, currentUserId: string): (r: seq<UserEntry>)
    ensures forall k :: 0 <= k < |r| ==> (r[k].isCurrent <==> r[k].id == currentUserId)
    ensures forall k :: 0 < k < |r| ==> !r[k].isCurrent
  {
    var first := FirstIndexWithId(users, currentUserId);
    (if first == -1 then [] else [EntryOf(users[first], true)]) + OtherEntries(users, currentUserId)
  }

  /** The findFirst pass: the current user's entry, marked, when some user has the id. */
  method CurrentUserEntry(users: seq<User>, currentUserId: string) returns (head: seq<UserEntry>)
    ensures var first := FirstIndexWithId(users, currentUserId);
            head == if first == -1 then [] else [EntryOf(users[first], true)]
  {
    var i := 0;
    while i < |users| && users[i].id != currentUserId
      invariant 0 <= i <= |users|
      invariant forall k :: 0 <= k < i ==> users[k].id != currentUserId
    {
      i := i + 1;
    }
    FirstIndexFromScan(users, currentUserId, i);
    head := if i < |users| then [EntryOf(users[i], true)] else [];
  }

  /** The filter-and-forEach pass: every other user's entry, unmarked, in input order. */
  method CollectOtherEntries(users: seq<User>, currentUserId: string) returns (others: seq<UserEntry>)
    ensures others == OtherEntries(users, currentUserId)
  {
    others := [];
    var j := 0;
    while j < |users|
      invariant 0 <= j <= |users|
      invariant others == OtherEntries(users[..j], currentUserId)
    {
      OtherEntriesStep(users, currentUserId, j);
      if users[j].id != currentUserId {
        others := others + [EntryOf(users[j], false)];
      }
      j := j + 1;
    }
    assert users[..|users|] == users;
  }

  /** buildPersonalizedUserList: the findFirst pass, then the pass over the others. */
  method BuildPersonalizedUserList(users: seq<User>, currentUserId: string) returns (list: seq<UserEntry>)
    ensures list == PersonalizedUserList(users, currentUserId)
  {
    var head := CurrentUserEntry(users, currentUserId);
    var others := CollectOtherEntries(users, currentUserId);
    list := head + others;
  }

  /**
   * The current user, if present, comes first and is the only entry marked
   * current; an entry is marked current exactly when its id matches; every
   * other user appears; the list is never longer than the input.
   */
  lemma PersonalizedUserListProperties(users: seq<User>, currentUserId: string)
    ensures var list := PersonalizedUserList(users, currentUserId);
      var first := FirstIndexWithId(users, currentUserId);
      && (forall k :: 0 <= k < |list| ==> (list[k].isCurrent <==> list[k].id == currentUserId))
      && (forall k :: 0 <= k < |list| && list[k].isCurrent ==> k == 0)
      && (first >= 0 <==> |list| > 0 && list[0].isCurrent)
      && (first >= 0 ==> list[0] == EntryOf(users[first], true))
      && |list| <= |users|
      && (forall k :: 0 <= k < |users| && users[k].id != currentUserId ==> EntryOf(users[k], false) in list)
  {
    var list := PersonalizedUserList(users, currentUserId);
    var first := FirstIndexWithId(users, currentUserId);
    var others := OtherEntries(users, currentUserId);
    if first >= 0 {
      assert list == [EntryOf(users[first], true)] + others;
      assert |others| < |users| by {
        if |others| == |users| {
          OtherEntriesSkipsMatch(users, currentUserId, first);
        }
      }
    }
    forall k | 0 <= k < |users| && users[k].id != currentUserId
      ensures EntryOf(users[k], false) in list
    {
      OtherEntriesComplete(users, currentUserId, k);
    }
  }

  /** A user with the matching id has no entry among the others, so they are fewer than the users. */
  lemma {:induction false} OtherEntriesSkipsMatch(users: seq<User>, id: string, k: nat)
    requires k < |users| && users[k].id == id
    ensures |OtherEntries(users, id)| < |users|
    decreases |users|
  {
    var init := users[..|users| - 1];
    if k < |users| - 1 {
      assert init[k] == users[k];
      OtherEntriesSkipsMatch(init, id, k);
    }
  }

  /** With nobody matching, the list is every user, unmarked, in order. */
  lemma NoCurrentUserKeepsOrder(users: seq<User>, currentUserId: string)
    requires forall k :: 0 <= k < |users| ==> users[k].id != currentUserId
    ensures var list := PersonalizedUserList(users, currentUserId);
      |list| == |users| && forall k :: 0 <= k < |list| ==> list[k] == EntryOf(users[k], false)
  {
    OtherEntriesAllDiffer(users, currentUserId);
  }

  // ---------------------------------------------------------------------
  // The clipboard title.

  const DEFAULT_CLIPBOARD_TITLE: string := "Clipboard Content"
  const MAX_TITLE_LENGTH: nat := 100

  /**
   * The title after the regular-expression cleanup: longer than 100 chars
   * becomes its first 97 plus "...", empty becomes the default.
   */
  function TitleFromCleaned(cleaned: string): (t: string)
    ensures 0 < |t| <= MAX_TITLE_LENGTH
    ensures 0 < |cleaned| <= MAX_TITLE_LENGTH ==> t == cleaned
    ensures cleaned == "" ==> t == DEFAULT_CLIPBOARD_TITLE
    ensures |cleaned| > MAX_TITLE_LENGTH ==> t == cleaned[..97] + "..."
  {
    var title := if |cleaned| > MAX_TITLE_LENGTH then cleaned[..97] + "..." else cleaned;
    if title == "" then DEFAULT_CLIPBOARD_TITLE else title
  }

  /**
   * The title generateClipboardTitle returns. `aiResponse` is None when the
   * model call threw; `cleanup` stands for the three replaceAll calls.
   */
  function ClipboardTitle(aiResponse: Option<string>, cleanup: string -> string): (t: string)
    ensures 0 < |t| <= MAX_TITLE_LENGTH
    ensures aiResponse.None? ==> t == DEFAULT_CLIPBOARD_TITLE
  {
    if aiResponse.None? then DEFAULT_CLIPBOARD_TITLE else TitleFromCleaned(cleanup(Trim(aiResponse.value)))
  }

  /** A produced title passes through the rule unchanged: the rule is idempotent. */
  lemma TitleFromCleanedIdempotent(cleaned: string)
    ensures TitleFromCleaned(TitleFromCleaned(cleaned)) == TitleFromCleaned(cleaned)
  {
  }
}
