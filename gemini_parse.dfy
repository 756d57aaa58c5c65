/** Response handling of `GeminiService` in src/lib/gemini.ts: the envelope
    check of `makeRequest` and the ordered fallbacks of `parseResponse`.
    `JSON.parse` is a parameter `string -> Option<J>` (None where it throws);
    the model says nothing about which texts are JSON. */
module GeminiParse {
  import opened Wrappers
  import opened Text
  import Seqs
  import GeminiFormat

  const ParseFailure := "Failed to parse Gemini API response"
  const UnexpectedFormat := "Unexpected response format from Gemini API"
  const HttpFailure := "Error calling Gemini API"
  /** What V8 throws when `parts[0]` is undefined and `.text` is read from it. */
  const MissingPartError := "Cannot read properties of undefined (reading 'text')"

  /** What `parseResponse` returns: the parsed JSON value, or one of the three shapes
      built by its fallbacks. */
  datatype Parsed<J> =
    | Json(value: J)
    | TitleList(titles: seq<string>)
    | TopicList(topics: seq<string>)
    | ArticleBody(article: string)

  // ---------------------------------------------------------------------
  // The response envelope: data.candidates[0].content.parts[0].text
  // ---------------------------------------------------------------------

  /** `parts[i]`; `text` is absent when undefined or null. */
  datatype Part = Part(text: Option<string>)
  datatype Content = Content(parts: Option<seq<Part>>)
  datatype Candidate = Candidate(content: Option<Content>)
  /** The JSON body of a successful HTTP response. */
  datatype ResponseData = ResponseData(candidates: Option<seq<Candidate>>)

  /** The HTTP response as `makeRequest` sees it: `ok`, the `error.message` of an error
      body, and the data of a success body. */
  datatype HttpResponse = HttpResponse(ok: bool, errorMessage: Option<string>, data: ResponseData)

  /** The envelope holds a non-empty text where `makeRequest` reads it. */
  predicate HasCandidateText(data: ResponseData)
  {
    && data.candidates.Some? && |data.candidates.value| > 0
    && data.candidates.value[0].content.Some?
    && data.candidates.value[0].content.value.parts.Some?
    && |data.candidates.value[0].content.value.parts.value| > 0
    && data.candidates.value[0].content.value.parts.value[0].text.Some?
    && data.candidates.value[0].content.value.parts.value[0].text.value != ""
  }

  /** The guard of `makeRequest` as written: it never checks that `parts[0]` exists, so
      an empty `parts` array throws a TypeError instead of the intended message. */
  function CandidateTextAsWritten(data: ResponseData): (r: Result<string>)
    ensures r.Ok? <==> HasCandidateText(data)
  {
    if data.candidates.None? || |data.candidates.value| == 0 then Err(UnexpectedFormat)
    else
      var c := data.candidates.value[0];
      if c.content.None? || c.content.value.parts.None? then Err(UnexpectedFormat)
      else if |c.content.value.parts.value| == 0 then Err(MissingPartError)
      else
        var t := c.content.value.parts.value[0].text;
        if t.None? || t.value == "" then Err(UnexpectedFormat) else Ok(t.value)
  }

  /** The guard with the missing `parts[0]` test added: every envelope without a
      non-empty text fails with "Unexpected response format". */
  function CandidateText(data: ResponseData): (r: Result<string>)
    ensures r.Ok? <==> HasCandidateText(data)
    ensures r.Ok? ==> r.value == data.candidates.value[0].content.value.parts.value[0].text.value
    ensures r.Err? ==> r.error == UnexpectedFormat
  {
    if !HasCandidateText(data) then Err(UnexpectedFormat)
    else Ok(data.candidates.value[0].content.value.parts.value[0].text.value)
  }

  /** The two guards agree except on an envelope whose `parts` array is empty. */
  lemma CandidateTextAgreement(data: ResponseData)
    ensures CandidateTextAsWritten(data) == CandidateText(data)
            <==> !(data.candidates.Some? && |data.candidates.value| > 0
                   && data.candidates.value[0].content.Some?
                   && data.candidates.value[0].content.value.parts == Some([]))
  {
  }

  /** The input that shows the missing check: `{candidates: [{content: {parts: []}}]}`. */
  lemma EmptyPartsCounterexample()
    ensures CandidateTextAsWritten(ResponseData(Some([Candidate(Some(Content(Some([]))))])))
            == Err(MissingPartError)
    ensures CandidateText(ResponseData(Some([Candidate(Some(Content(Some([]))))])))
            == Err(UnexpectedFormat)
  {
  }

  // ---------------------------------------------------------------------
  // parseResponse, step 1: a fenced code block
  // ---------------------------------------------------------------------

  const JsonFenceOpen := "```json\n"
  const JsonFenceClose := "\n```"
  const Fence := "```"

  /** The match of `/<open>([\s\S]*?)<close>/` starts at `p`, the leftmost opening,
      and its closing is at `q`, the first one after that opening. */
  predicate LeftmostCapture(text: string, open: string, close: string, p: nat, q: nat)
  {
    FirstOccurrence(text, open, 0, p) && FirstOccurrence(text, close, p + |open|, q)
  }

  /** The capture of `/```json\n([\s\S]*?)\n```/`: the text between the leftmost
      opening and the nearest closing after it (a later opening could only find a
      later closing); no match when either is missing. */
  function JsonFenceMatch(text: string): (r: Option<string>)
    ensures r.Some? ==> exists p: nat, q: nat :: LeftmostCapture(text, JsonFenceOpen, JsonFenceClose, p, q)
                                                && r.value == text[p + 8..q]
    ensures r.None? <==> (forall j: nat :: !OccursAt(text, JsonFenceOpen, j))
                         || exists p: nat :: FirstOccurrence(text, JsonFenceOpen, 0, p)
                                             && forall q: nat :: p + 8 <= q ==> !OccursAt(text, JsonFenceClose, q)
  {
    match IndexOf(text, JsonFenceOpen, 0)
    case None => None
    case Some(p) =>
      assert FirstOccurrence(text, JsonFenceOpen, 0, p);
      match IndexOf(text, JsonFenceClose, p + 8)
      case None => None
      case Some(q) =>
        assert LeftmostCapture(text, JsonFenceOpen, JsonFenceClose, p, q);
        FirstOccurrenceUnique(text, JsonFenceOpen, 0, p);
        Some(text[p + 8..q])
  }

  /** The capture of `/```([\s\S]*?)```/`: the text between the leftmost fence and the
      next one after it; no match when there are not two. */
  function FenceMatch(text: string): (r: Option<string>)
    ensures r.Some? ==> exists p: nat, q: nat :: LeftmostCapture(text, Fence, Fence, p, q)
                                                && r.value == text[p + 3..q]
    ensures r.None? <==> (forall j: nat :: !OccursAt(text, Fence, j))
                         || exists p: nat :: FirstOccurrence(text, Fence, 0, p)
                                             && forall q: nat :: p + 3 <= q ==> !OccursAt(text, Fence, q)
  {
    match IndexOf(text, Fence, 0)
    case None => None
    case Some(p) =>
      assert FirstOccurrence(text, Fence, 0, p);
      match IndexOf(text, Fence, p + 3)
      case None => None
      case Some(q) =>
        assert LeftmostCapture(text, Fence, Fence, p, q);
        FirstOccurrenceUnique(text, Fence, 0, p);
        Some(text[p + 3..q])
  }

  /** There is only one first occurrence. */
  lemma FirstOccurrenceUnique(s: string, pattern: string, from: nat, p: nat)
    requires FirstOccurrence(s, pattern, from, p)
    ensures forall p' :: FirstOccurrence(s, pattern, from, p') ==> p' == p
  {
  }

  /** `text.match(jsonFence) || text.match(fence)` followed by the test `jsonMatch[1]`:
      the `json` fence wins when it matches at all, even with an empty capture, and an
      empty capture is falsy, so no fenced content is used then. */
  function FencedContent(text: string): (r: Option<string>)
    ensures r.Some? ==> r.value != ""
    ensures JsonFenceMatch(text).Some? ==>
              r == (if JsonFenceMatch(text).value == "" then None else JsonFenceMatch(text))
    ensures JsonFenceMatch(text).None? ==>
              r == (if FenceMatch(text).Some? && FenceMatch(text).value != "" then FenceMatch(text) else None)
  {
    var m := if JsonFenceMatch(text).Some? then JsonFenceMatch(text) else FenceMatch(text);
    if m.Some? && m.value != "" then m else None
  }

  // ---------------------------------------------------------------------
  // parseResponse, step 3: a line list of titles or topics
  // ---------------------------------------------------------------------

  /** `s` begins with a list marker: digits followed by `.` or `)`, or one of `-`, `*`,
      a double or a single quote. */
  predicate StartsWithMarker(s: string)
  {
    || (DigitRun(s) > 0 && DigitRun(s) < |s| && s[DigitRun(s)] in ".)")
    || (|s| > 0 && s[0] in "-*\"'")
  }

  /** Length of the match of `/^(\d+[\.\)]\s*|[-*]\s*|\"\s*|\'\s*)/` on `s`: the marker
      and the whitespace after it, or 0 when there is no marker. */
  function MarkerLength(s: string): (k: nat)
    ensures k <= |s|
    ensures k > 0 <==> StartsWithMarker(s)
    ensures k > 0 ==> MarkerEnd(s) <= k
    ensures k > 0 ==> AllWhitespace(s[MarkerEnd(s)..k]) && (k < |s| ==> !IsWhitespace(s[k]))
  {
    if StartsWithMarker(s) then
      var m := MarkerEnd(s);
      var w := LeadingWhitespace(s[m..]);
      assert s[m..m + w] == s[m..][..w];
      assert m + w < |s| ==> s[m + w] == s[m..][w];
      m + w
    else 0
  }

  /** End of the marker proper (before the whitespace the regex also consumes). */
  function MarkerEnd(s: string): (m: nat)
    requires StartsWithMarker(s)
    ensures 0 < m <= |s|
  {
    if DigitRun(s) > 0 && DigitRun(s) < |s| && s[DigitRun(s)] in ".)" then DigitRun(s) + 1 else 1
  }

  /** The filter of the line-list fallback: the trimmed line starts with a marker. */
  predicate IsListLine(line: string)
  {
    StartsWithMarker(Trim(line))
  }

  /** Drops one trailing `c` (`replace(/c$/, '')`). */
  function DropTrailing(s: string, c: char): (r: string)
    ensures |r| <= |s| && r == s[..|r|]
    ensures r == s <==> !(|s| > 0 && s[|s| - 1] == c)
  {
    if |s| > 0 && s[|s| - 1] == c then s[..|s| - 1] else s
  }

  /** The map of the line-list fallback: one marker is removed from the start of the
      untrimmed line, then one trailing double quote, then one trailing single quote,
      and the rest is trimmed. */
  function StripListLine(line: string): (r: string)
    ensures IsTrimmed(r)
    ensures |r| <= |line|
  {
    var rest := line[MarkerLength(line)..];
    Trim(DropTrailing(DropTrailing(rest, '"'), '\''))
  }

  /** The titles or topics the fallback extracts from the response text. */
  function ListItems(text: string): (items: seq<string>)
    ensures |items| <= CountChar(text, '\n') + 1
    ensures forall i :: 0 <= i < |items| ==> IsTrimmed(items[i])
  {
    var lines := Split(text, '\n');
    var kept := Seqs.Filter(IsListLine, lines);
    Seqs.Map(StripListLine, kept)
  }

  /** The sniffing that decides the list shape. */
  predicate MentionsTitles(text: string)
  {
    Contains(text, "titles:") || Contains(text, "title:")
  }

  predicate MentionsTopics(text: string)
  {
    Contains(text, "topics:") || Contains(text, "topic:")
  }

  // ---------------------------------------------------------------------
  // parseResponse
  // ---------------------------------------------------------------------

  /** `parseResponse(text)`. */
  function ParseResponse<J>(text: string, jsonParse: string -> Option<J>): (r: Result<Parsed<J>>)
    ensures r.Err? ==> r.error == ParseFailure
  {
    match FencedContent(text)
    case Some(block) =>
      (match jsonParse(Trim(block))
       case Some(v) => Ok(Json(v))
       case None => Err(ParseFailure))
    case None =>
      match jsonParse(Trim(text))
      case Some(v) => Ok(Json(v))
      case None =>
        if MentionsTitles(text) then Ok(TitleList(ListItems(text)))
        else if MentionsTopics(text) then Ok(TopicList(ListItems(text)))
        else Ok(ArticleBody(GeminiFormat.FormatArticleContent(Trim(text))))
  }

  /** The only failure is malformed JSON inside a fenced block; no later fallback is
      tried for it. */
  lemma ParseFailsOnlyOnBadFence<J>(text: string, jsonParse: string -> Option<J>)
    ensures ParseResponse(text, jsonParse).Err?
            <==> FencedContent(text).Some? && jsonParse(Trim(FencedContent(text).value)).None?
  {
  }

  /** A fenced block is tried before the whole text: when it parses, its value is the
      result whatever the whole text would parse to. */
  lemma FenceTakesPrecedence<J>(text: string, jsonParse: string -> Option<J>)
    requires FencedContent(text).Some?
    requires jsonParse(Trim(FencedContent(text).value)).Some?
    ensures ParseResponse(text, jsonParse) == Ok(Json(jsonParse(Trim(FencedContent(text).value)).value))
  {
  }

  /** The titles branch is checked before the topics branch. */
  lemma TitlesBeforeTopics<J>(text: string, jsonParse: string -> Option<J>)
    requires FencedContent(text).None? && jsonParse(Trim(text)).None?
    requires MentionsTitles(text)
    ensures ParseResponse(text, jsonParse) == Ok(TitleList(ListItems(text)))
  {
  }

  /** Without JSON and without a keyword, the text becomes an article, and that article
      is bracketed by markup. */
  lemma ArticleFallback<J>(text: string, jsonParse: string -> Option<J>)
    requires FencedContent(text).None? && jsonParse(Trim(text)).None?
    requires !MentionsTitles(text) && !MentionsTopics(text)
    ensures ParseResponse(text, jsonParse).Ok?
    ensures ParseResponse(text, jsonParse).value.ArticleBody?
    ensures GeminiFormat.Bracketed(ParseResponse(text, jsonParse).value.article)
  {
  }

  /** The line-list items are the marked lines, in order, each stripped: adding a line
      at the end adds its item, if it is a list line, after the others. */
  lemma ListItemsAppend(before: string, line: string)
    requires '\n' !in line
    ensures ListItems(before + "\n" + line)
            == ListItems(before) + (if IsListLine(line) then [StripListLine(line)] else [])
  {
    var lines := Split(before, '\n');
    SplitAppend(before, line, '\n');
    SplitNoSeparator(line, '\n');
    assert Split(before + "\n" + line, '\n') == lines + [line];
    var kept := Seqs.Filter(IsListLine, lines);
    var last := Seqs.Filter(IsListLine, [line]);
    Seqs.FilterAppend(IsListLine, lines, [line]);
    assert last == if IsListLine(line) then [line] else [] by {
      assert [line][1..] == [];
    }
    Seqs.MapAppend(StripListLine, kept, last);
    assert Seqs.Map(StripListLine, last) == if IsListLine(line) then [StripListLine(line)] else [];
  }

  /** The marker is taken off the line as it comes, before trimming: a line that starts
      with whitespace is kept by the filter, but its marker stays in the item. */
  lemma IndentedLineKeepsMarker(line: string)
    requires line != [] && IsWhitespace(line[0])
    ensures StripListLine(line) == Trim(DropTrailing(DropTrailing(line, '"'), '\''))
  {
    assert !IsDigit(line[0]);
    assert DigitRun(line) == 0;
    assert line[0] !in "-*\"'";
    assert line[MarkerLength(line)..] == line;
  }

  /** `makeRequest` after the fetch: an HTTP error fails with the provider's message or
      a default; a success needs the candidate text, which is then parsed. */
  function HandleResponse<J>(response: HttpResponse, jsonParse: string -> Option<J>): (r: Result<Parsed<J>>)
    ensures !response.ok ==> r.Err? && r.error != ""
    ensures (!response.ok && response.errorMessage.Some? && response.errorMessage.value != "")
            ==> r == Err(response.errorMessage.value)
    ensures response.ok && !HasCandidateText(response.data) ==> r == Err(UnexpectedFormat)
    ensures (response.ok && HasCandidateText(response.data))
            ==> r == ParseResponse(CandidateText(response.data).value, jsonParse)
  {
    if !response.ok then
      Err(if response.errorMessage.Some? && response.errorMessage.value != ""
          then response.errorMessage.value else HttpFailure)
    else
      match CandidateText(response.data)
      case Err(e) => Err(e)
      case Ok(text) => ParseResponse(text, jsonParse)
  }
}
