# title-flare in Dafny

A model of the logic of title-flare, a browser application that turns topics into
articles. The user enters API keys and a comma-separated list of topics. For each
topic the application asks the Gemini text-generation service for titles, then for
one article per title. It may add a Pexels image to each article. It also asks for
related topics, which the user can select and generate from in turn.

The model covers:

- the rate-limited request queue of `GeminiService`, and its response handling:
  the envelope check, the fallbacks of `parseResponse`, and the Markdown-to-HTML
  rewrite `formatArticleContent` (modules `GeminiQueue`, `GeminiParse`, `GeminiFormat`);
- the generation pipeline and topic selection of the main page (`IndexPage`);
- the in-memory article store (`ArticleApi`);
- the list logic of the components: article grouping (`ArticleList`), the topic
  panel (`RelatedTopics`), topic input (`TopicInput`), the key form (`ApiKeyForm`)
  and key creation (`ApiKeyManager`).

`Wrappers`, `Seqs` and `Text` hold the shared vocabulary. `Seqs` covers the
JavaScript array methods `filter`, `map` and `flat`. `Text` covers the string
methods `trim`, `split` with a one-character separator, `indexOf` and
`startsWith`/`endsWith`. `Types` holds the records of `src/types/index.ts`.

## How the outside world enters

- `JSON.parse` is a parameter `string -> Option<J>`, which is `None` where it throws.
- The three Gemini calls of a generation run are parameters of `IndexPage.Providers`,
  already parsed. Each is an `Err` where its promise rejects. The same record holds
  the Pexels search, which never rejects and yields `None` for "no image".
- `crypto.randomUUID()` is a function of which call asks for the id
  (`IndexPage.IdRequest`). `new Date()` is a function of the title index.
- `crypto.getRandomValues` is the byte sequence passed to
  `ApiKeyManager.KeyManager.GenerateApiKey`. The Supabase insert is a function
  from the row to success.
- React state becomes the fields of a class per component that keeps state:
  `IndexPage.IndexPage`, `ApiKeyForm.KeyForm` and `ApiKeyManager.KeyManager`.
  Each handler runs to completion as one method.

## What the code does not do

- `src/components/GenerationSettings.tsx:77-106` offers sliders for 1 to 10 articles
  per topic and 0 to 3 images per article. `src/pages/Index.tsx` never renders this
  component and never reads its values. So no cap applies to the titles of a topic, and
  an article gets at most one image, from `searchImages` when a Pexels key is set
  (`src/pages/Index.tsx:102-105`).
- `generateContent` has no stop or cancel flag. It stores all articles of a run in one
  `storeArticles` call (`src/pages/Index.tsx:140`), and only when every stage succeeded.
- The title-list fallback is chosen only when the text contains `titles:` or `title:`
  (`src/lib/gemini.ts:127`). A numbered reply such as `"1. A\n2. B\n"` without either
  word becomes an article (`GeminiParse.ArticleFallback`).

## Model

| member | source | states |
|---|---|---|
| GeminiQueue.RunWrapped | src/lib/gemini.ts:17-24 | the wrapped thunk settles the promise of the caller that enqueued it, with that call's own value or error and nothing else |
| GeminiQueue.ApiQueue.constructor | src/lib/gemini.ts:6-13 | a new queue is empty, idle and keeps its interval |
| GeminiQueue.ApiQueue.Enqueue | src/lib/gemini.ts:15-30 | the call is pushed at the tail. A drain starts only when none is running, and it runs the head at once. Afterwards `processing` holds, there is still exactly one drain chain, and FIFO order is kept |
| GeminiQueue.ApiQueue.ProcessQueue | src/lib/gemini.ts:32-51 | an empty queue clears `processing` and ends the chain. Otherwise the head is shifted off and run, and the chain goes on whatever the call's outcome |
| GeminiQueue.ApiQueue.Drain | src/lib/gemini.ts:32-51 | draining runs every waiting call in enqueue order. Each caller's promise gets that call's own outcome, a rejection does not stop later calls, and the queue ends empty and idle |
| GeminiParse.CandidateTextAsWritten | src/lib/gemini.ts:99-101 | the guard as written succeeds exactly for an envelope with a non-empty `candidates[0].content.parts[0].text`. An empty `parts` array fails with a TypeError message instead |
| GeminiParse.CandidateText | src/lib/gemini.ts:99-103 | the corrected guard succeeds exactly for an envelope with a non-empty text, returns that text, and otherwise fails with "Unexpected response format from Gemini API" |
| GeminiParse.CandidateTextAgreement | src/lib/gemini.ts:99-101 | the guard as written and the corrected guard agree on every envelope except one whose `parts` array is empty |
| GeminiParse.EmptyPartsCounterexample | src/lib/gemini.ts:99-101 | for `{candidates: [{content: {parts: []}}]}` the guard as written gives the TypeError message, where the message meant for malformed envelopes is intended |
| GeminiParse.HandleResponse | src/lib/gemini.ts:92-104 | for a body that is a JSON object, an HTTP error fails with the provider's message or "Error calling Gemini API". Otherwise the text is parsed when the envelope holds one. Without it, the result is "Unexpected response format": this uses the corrected guard of "## Findings", so an empty `parts` array gives this message and not the TypeError |
| GeminiParse.JsonFenceMatch | src/lib/gemini.ts:116 | a match is the text between the leftmost "```json\n" and the first "\n```" after it. There is no match exactly when there is no opening, or no closing after the leftmost one |
| GeminiParse.FenceMatch | src/lib/gemini.ts:116 | a match is the text between the leftmost "```" and the first "```" after it. There is no match exactly when there is no fence, or none after the leftmost one |
| GeminiParse.FencedContent | src/lib/gemini.ts:116-118 | the `json` fence is tried first and wins whenever it matches. The generic fence is used only when the `json` fence does not match. An empty capture counts as no fenced content |
| GeminiParse.MarkerLength | src/lib/gemini.ts:130-132 | the list-marker regex matches exactly the lines starting with a marker. Its match is the marker plus all the whitespace after it |
| GeminiParse.DropTrailing | src/lib/gemini.ts:132 | removing a trailing quote yields a prefix of the input, and the input comes back unchanged exactly when it does not end with that quote |
| GeminiParse.StripListLine | src/lib/gemini.ts:132 | a stripped list line is trimmed and no longer than the line |
| GeminiParse.ListItems | src/lib/gemini.ts:129-133 | there are at most as many items as lines, and every item is trimmed |
| GeminiParse.ListItemsAppend | src/lib/gemini.ts:129-133 | items keep line order: one more line adds its stripped form at the end exactly when it is a list line |
| GeminiParse.IndentedLineKeepsMarker | src/lib/gemini.ts:130-132 | a line that starts with whitespace keeps its marker, because the marker is removed from the untrimmed line |
| GeminiParse.ParseResponse | src/lib/gemini.ts:113-154 | the only error `parseResponse` raises is "Failed to parse Gemini API response" |
| GeminiParse.ParseFailsOnlyOnBadFence | src/lib/gemini.ts:116-153 | parsing fails exactly when there is fenced content whose trimmed text is not JSON. No later fallback is tried then |
| GeminiParse.FenceTakesPrecedence | src/lib/gemini.ts:116-124 | fenced JSON is the result whatever the whole text would parse to |
| GeminiParse.TitlesBeforeTopics | src/lib/gemini.ts:127-142 | without JSON, a text mentioning `titles:` or `title:` gives a title list, even if it also mentions topics |
| GeminiParse.ArticleFallback | src/lib/gemini.ts:143-147 | without JSON and without a keyword, the result is an article, and that article is bracketed by markup |
| GeminiFormat.LineEnd | src/lib/gemini.ts:161 | `(.*?)$` in multiline mode stops at the first line terminator or at the end |
| GeminiFormat.ListItemEnd | src/lib/gemini.ts:192 | a `<li>…</li>\n?` group that starts at a position ends within the text, at least nine characters later |
| GeminiFormat.ListRunEnd | src/lib/gemini.ts:192 | the run of consecutive list groups ends within the text, at or after its start |
| GeminiFormat.MatchLength | src/lib/gemini.ts:159-195 | the match a rule picks at a position never runs past the end of the text |
| GeminiFormat.FormatArticleContent | src/lib/gemini.ts:157-199 | for every input, the result starts with `<` after leading whitespace and ends with `>` before trailing whitespace |
| GeminiFormat.EnsureOpening | src/lib/gemini.ts:182-184 | prefixing `<p class="my-2">` when the text does not open with a tag makes it open with one |
| GeminiFormat.EnsureClosing | src/lib/gemini.ts:187-189 | appending `</p>` when the text does not close with a tag makes it close with one, and the opening is kept |
| GeminiFormat.ListRunIsTagRule | src/lib/gemini.ts:192 | the list wrap matches only at `<` and replaces each match with text that starts with `<` and ends with `>` |
| GeminiFormat.LiteralIsTagRule | src/lib/gemini.ts:195-196 | a literal replacement of a tag by a tag matches only at `<` and yields text that starts with `<` and ends with `>` |
| GeminiFormat.TagRewriteKeepsOpening | src/lib/gemini.ts:192-196 | a rewrite by such a rule keeps a text that opens with a tag opening with one |
| GeminiFormat.TagRewriteKeepsClosing | src/lib/gemini.ts:192-196 | a rewrite by such a rule keeps a text that closes with a tag closing with one |
| GeminiFormat.TagRewriteKeepsBrackets | src/lib/gemini.ts:192-196 | the list wrap and the two double-wrap fixes keep a bracketed text bracketed |
| ArticleApi.FirstIndexWithId | src/api/articleApi.ts:29 | the index found is that of an article with the id, with no earlier article having it. None means no article has it |
| ArticleApi.ArticlesOfTopicExact | src/api/articleApi.ts:24 | an article is in the topic filter exactly when it is stored and has that topic id |
| ArticleApi.ArticlesOfTopicAppend | src/api/articleApi.ts:24 | the topic filter keeps store order, so it distributes over concatenation |
| ArticleApi.FindByIdAppend | src/api/articleApi.ts:29 | appending articles never changes what a lookup by a present id finds. For an absent id the lookup searches the new articles |
| ArticleApi.ArticleStore.constructor | src/api/articleApi.ts:5 | the store starts empty |
| ArticleApi.ArticleStore.StoreArticle | src/api/articleApi.ts:8-10 | exactly one article is appended at the end and earlier contents are unchanged |
| ArticleApi.ArticleStore.StoreArticles | src/api/articleApi.ts:13-15 | the store becomes the old contents followed by the new articles in their order |
| ArticleApi.ArticleStore.GetAllArticles | src/api/articleApi.ts:18-20 | returns a sequence equal to the store and changes nothing |
| ArticleApi.ArticleStore.GetArticlesByTopic | src/api/articleApi.ts:23-25 | returns exactly the stored articles with that topic id, in store order |
| ArticleApi.ArticleStore.GetArticleById | src/api/articleApi.ts:28-30 | returns the first stored article with that id, or None exactly when no article has it |
| ArticleApi.ArticleStore.ClearArticles | src/api/articleApi.ts:33-35 | the store is empty afterwards |
| IndexPage.All | src/pages/Index.tsx:82 | `Promise.all` succeeds exactly when every promise does, with the values in list order. Otherwise it fails with the error of a rejected promise that has only successes before it |
| IndexPage.AllAppend | src/pages/Index.tsx:82 | one more successful promise at the end adds its value at the end |
| IndexPage.NewTopics | src/pages/Index.tsx:40-44 | one topic per name, in order, marked user-generated, each carrying the id minted for its position |
| IndexPage.NewTopicsFresh | src/pages/Index.tsx:40-44 | when ids are fresh as `crypto.randomUUID()` provides them, the new topics have pairwise distinct ids, none equal to an id already held, so the topics keep distinct ids after they are appended |
| IndexPage.TitlesOf | src/pages/Index.tsx:75-79 | one title per returned text, in order, each tagged with the topic's id |
| IndexPage.AllTitlesOk | src/pages/Index.tsx:66-83 | the title stage succeeds exactly when every topic gets its titles |
| IndexPage.AllTitlesAppend | src/pages/Index.tsx:66-83 | the title list is each topic's titles concatenated in batch order, none dropped (no capping) |
| IndexPage.AllTitlesTagged | src/pages/Index.tsx:75-79 | every title carries the id of a topic of the batch |
| IndexPage.FindTopic | src/pages/Index.tsx:93 | the topic found is the first topic of the batch with the id, as `find` returns. None means no topic of the batch has it. When the batch ids are distinct, a title finds exactly the topic whose id it carries |
| IndexPage.BuildArticle | src/pages/Index.tsx:100-116 | an article is built exactly when the text call succeeds. It carries the title's text and id, the topic's id and the returned content, and has no image without a Pexels key |
| IndexPage.ArticlesOfErrorStops | src/pages/Index.tsx:91-119 | a failure ends the loop: its error is the outcome whatever titles follow |
| IndexPage.ArticlesFollowTitles | src/pages/Index.tsx:91-119 | one article per title whose topic is found, in title order, with that title's text and id and its topic id. Titles of other topics are skipped |
| IndexPage.ArticleTopicInBatch | src/pages/Index.tsx:93-116 | every article's topic id is the id of a topic in the batch |
| IndexPage.NoTitleSkipped | src/pages/Index.tsx:66-95 | every title produced by the title stage finds its topic, so the loop skips none |
| IndexPage.RelatedOf | src/pages/Index.tsx:125-129 | one related topic per returned name, in order, marked not user-generated |
| IndexPage.RelatedTopicsAppend | src/pages/Index.tsx:122-133 | related topics are each topic's list concatenated in batch order |
| IndexPage.RelatedNotUserGenerated | src/pages/Index.tsx:125-129 | no related topic is marked user-generated |
| IndexPage.GenerationArticles | src/pages/Index.tsx:54-150 | a run succeeds exactly when all three stages do. It then yields exactly one article per title, in title order |
| IndexPage.ToggleSelectionEffect | src/pages/Index.tsx:152-158 | selecting a selected topic removes every topic with its id, keeps the others and adds nothing. Selecting another topic appends it at the end |
| IndexPage.ToggleTwice | src/pages/Index.tsx:152-158 | clicking an unselected topic twice restores the selection |
| IndexPage.IndexPage.constructor | src/pages/Index.tsx:18-26 | the page starts with no topics, selection or articles, idle, with progress `{0, 0, ""}` |
| IndexPage.IndexPage.HandleTopicSubmit | src/pages/Index.tsx:33-52 | without keys nothing changes. Otherwise the new topics are appended and become the selection, and a run for them follows |
| IndexPage.IndexPage.GenerateContent | src/pages/Index.tsx:54-150 | without keys nothing changes. Otherwise related topics and articles are appended, and the articles stored, only when the whole run succeeds. The page always ends idle with progress reset, and the selection is unchanged |
| IndexPage.IndexPage.BuildArticles | src/pages/Index.tsx:89-119 | the loop's result equals the title-by-title specification: the articles of the found titles, or the first error |
| IndexPage.IndexPage.HandleSelectTopic | src/pages/Index.tsx:152-158 | the selection becomes the toggled selection and nothing else changes |
| IndexPage.IndexPage.HandleGenerateMore | src/pages/Index.tsx:160-167 | an empty selection changes nothing, and neither does a missing key. Otherwise a run is made for the selected topics, and its results are committed only when it succeeds |
| ArticleList.GroupByTopicAppend | src/components/ArticleList.tsx:12-18 | groups follow topic order, and a topic adds a group only when it has articles |
| ArticleList.GroupsAreTopicArticles | src/components/ArticleList.tsx:12-18 | every group is a listed topic with a non-empty list holding exactly that topic's articles, in their original order |
| ArticleList.ArticleShownIffTopicListed | src/components/ArticleList.tsx:12-18 | an article appears in a group exactly when its topic id is the id of a listed topic |
| ArticleList.Render | src/components/ArticleList.tsx:20-26 | the empty state is shown exactly when there are no articles |
| ArticleList.CountLabel | src/components/ArticleList.tsx:35 | the label is "article" exactly for one article, and "articles" for every other count |
| RelatedTopics.PartitionMembership | src/components/RelatedTopics.tsx:13-14 | the user list holds exactly the user-generated topics and the AI list exactly the others |
| RelatedTopics.Partition | src/components/RelatedTopics.tsx:13-14 | the two lists are disjoint and their lengths add up to the number of topics |
| RelatedTopics.PartitionAppend | src/components/RelatedTopics.tsx:13-14 | both lists keep the input order |
| RelatedTopics.IsTopicSelected | src/components/RelatedTopics.tsx:17-19 | a topic shows as selected exactly when some selected topic has its id |
| RelatedTopics.RenderShape | src/components/RelatedTopics.tsx:21-50 | nothing is rendered exactly when there are no topics. The AI section shows exactly when some topic is not user-generated, and the "no user topics" note exactly when none is user-generated |
| TopicInput.ParseTopicInput | src/components/TopicInput.tsx:18-34 | `onSubmit` receives only a non-empty list of non-empty, trimmed names, at most one per comma-separated piece. Otherwise one of the two error messages results |
| TopicInput.BlankInputRejected | src/components/TopicInput.tsx:18-21 | the first error is given exactly for blank input |
| TopicInput.RejectedIffOnlyCommasAndWhitespace | src/components/TopicInput.tsx:18-32 | input is refused exactly when it holds nothing but commas and whitespace |
| TopicInput.TopicNamesAppend | src/components/TopicInput.tsx:24-27 | names keep input order: the names left of a comma come before those right of it |
| TopicInput.SingleTopic | src/components/TopicInput.tsx:24-27 | input without a comma and not blank gives its trimmed self as the only name |
| ApiKeyForm.OptionalKey | src/components/ApiKeyForm.tsx:34 | the Pexels key is undefined exactly when its input is blank, and is otherwise the trimmed input |
| ApiKeyForm.SubmitApiKeys | src/components/ApiKeyForm.tsx:18-35 | a blank Gemini key is rejected. Otherwise the trimmed key is saved with the normalised Pexels key. The warning fires exactly when the untrimmed key neither starts with "AI" nor is 30 or more of `[A-Za-z0-9_-]` |
| ApiKeyForm.SavedKeysEnableGeneration | src/components/ApiKeyForm.tsx:32-35 | saved keys count as set for generation, and images are fetched exactly when a non-blank Pexels key was given |
| ApiKeyForm.WarningSeesUntrimmedKey | src/components/ApiKeyForm.tsx:27-33 | `" AI"` draws the warning, yet is saved as `"AI"`: the check looks at the untrimmed key |
| ApiKeyForm.WarningDoesNotBlock | src/components/ApiKeyForm.tsx:27-35 | a key that draws the warning is still saved |
| ApiKeyForm.KeyForm.constructor | src/components/ApiKeyForm.tsx:10-13 | the form starts not submitting, over the context's saved keys |
| ApiKeyForm.KeyForm.HandleSubmit | src/components/ApiKeyForm.tsx:15-44 | a blank key shows the required-key error and saves nothing. Otherwise the keys are saved, the warning shows when due, then the success notice, and `isSubmitting` ends false |
| ApiKeyManager.ToHex | src/components/ApiKeyManager.tsx:41 | `toString(16)` gives a non-empty string of lower-case hex digits |
| ApiKeyManager.PadStart | src/components/ApiKeyManager.tsx:41 | `padStart` reaches the width by adding fill characters in front of the unchanged string |
| ApiKeyManager.ByteHex | src/components/ApiKeyManager.tsx:41 | each byte becomes exactly two hex digits, high nibble first, so a small byte gets a leading `0` |
| ApiKeyManager.HexKey | src/components/ApiKeyManager.tsx:40-42 | the key has two characters per byte, all in `[0-9a-f]` |
| ApiKeyManager.HexKeyCons | src/components/ApiKeyManager.tsx:40-42 | the key is the two-digit forms of the bytes laid end to end, in byte order |
| ApiKeyManager.DecodeHexKey | src/components/ApiKeyManager.tsx:40-42 | decoding the key two characters at a time recovers the bytes |
| ApiKeyManager.HexKeyInjective | src/components/ApiKeyManager.tsx:40-42 | different bytes never give the same key |
| ApiKeyManager.StoredDescription | src/components/ApiKeyManager.tsx:46 | the stored description is never empty: an empty field becomes "API Key", and any other text is kept |
| ApiKeyManager.KeyManager.constructor | src/components/ApiKeyManager.tsx:12 | the description field starts empty |
| ApiKeyManager.KeyManager.GenerateApiKey | src/components/ApiKeyManager.tsx:37-57 | the inserted row is the 64-character hex key of the 32 bytes with the defaulted description. The field is cleared exactly when the insert succeeds |
| Text.Trim | src/components/TopicInput.tsx:26 | `trim` yields a trimmed piece of the input |
| Text.TrimEmptyIffWhitespace | src/components/TopicInput.tsx:18 | `trim` is empty exactly for blank text |
| Text.Split | src/components/TopicInput.tsx:25 | `split` yields one piece more than there are separators, and no piece holds a separator |
| Text.JoinSplit | src/components/TopicInput.tsx:25 | joining the pieces with the separator gives back the input |
| Text.SplitAppend | src/components/TopicInput.tsx:25 | splitting at a separator splits the two sides independently |
| Text.SplitPieceChars | src/components/TopicInput.tsx:25 | every character of a piece comes from the input |
| Text.SplitCovers | src/components/TopicInput.tsx:25 | every non-separator character of the input lies in some piece |

## Left out

- Elapsed time: the 2000 ms spacing of the queue and the `setTimeout` that schedules the next drain step. The queue keeps the order of calls and the `processing` flag only.
- The `fetch` to Gemini and Pexels, the prompts, and the HTTP request bodies. The provider calls are parameters.
- Concurrency: `Promise.all` starts all calls at once and rejects with the first rejection in time. `IndexPage.All` picks the first rejected promise in list order. The model agrees with the code on whether a run fails and on what it commits, but not on which error message is shown.
- The progress values set inside the title map and the loop. Only the final reset is stated, because React batches these updates and only the last one is observable after a run.
- `renderProgressBar` and its floating-point percentage, and all JSX, toasts and console logging. The form's success, warning and error notices are the exception.
- Supabase: loading and deleting keys in `ApiKeyManager`, the settings of `GenerationSettings`, and the edge function. The insert is a parameter.
- `localStorage` in `ApiContext`.
- UTF-16: strings are sequences of characters, and `trim`'s whitespace set is written out in `Text.IsWhitespace`.
- The `ApiKeyForm` catch branch ("Failed to save API keys"). Setting React state does not throw, so the branch is unreachable in the model.
- `formatArticleContent`: the model runs the regular expressions as a left-to-right scan over characters. It proves the bracketing promise, but not what each HTML element looks like. A single global replace can leave a double `<p>` after a triple, and no idempotence is claimed.
- `GeminiParse.HandleResponse`: it uses the corrected envelope check `GeminiParse.CandidateText`. For an empty `parts` array it gives "Unexpected response format" where the code throws a TypeError; the code as written is `GeminiParse.CandidateTextAsWritten`, see "## Findings".
- `GeminiParse.HandleResponse`: the body is always a JSON object. A body that is not JSON makes `response.json()` reject with a SyntaxError (`src/lib/gemini.ts:93`, `97`), which the catch at lines 105-108 shows and rethrows. A `null` body throws a TypeError, at `error.error` for an HTTP error and at `data.candidates` otherwise. The model has neither failure.
- `IndexPage.NewTopics`: `crypto.randomUUID()` is the parameter `mintId`, which the function does not assume to be injective. Distinct ids are proved in `IndexPage.NewTopicsFresh` under `IndexPage.FreshIds`.
- `IndexPage.Providers`: its `article` field yields a string for every successful call. `generateArticle` returns `result.article`, which is undefined when the reply parses as JSON without an `article` field, or when it mentions `title:`, `titles:`, `topic:` or `topics:` (such as a "Subtitle:" line) and becomes a list. `IndexPage.BuildArticle` then stores `content: undefined`, which the model does not represent, since `Article.content` is a string.
- `TopicInput.ParseTopicInput`: the trimmed input is not passed on. `onSubmit` receives the names only.
- `ApiKeyManager.KeyManager.GenerateApiKey`: the refresh (`loadApiKeys`) after a successful insert is not modelled.

## Findings

| source | as written | input that shows it | evidently intended | confidence | as-written member | corrected member |
|---|---|---|---|---|---|---|
| src/lib/gemini.ts:99-101 | the guard tests `parts` but not `parts[0]` before reading `parts[0].text` | `{candidates: [{content: {parts: []}}]}` throws "Cannot read properties of undefined (reading 'text')" | every malformed envelope fails with "Unexpected response format from Gemini API" | not executed | GeminiParse.CandidateTextAsWritten | GeminiParse.CandidateText |
