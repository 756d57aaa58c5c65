/** The page component of src/pages/Index.tsx: the topic submission, the
    generation pipeline `generateContent` and the topic selection. The React
    state of the page becomes the fields of one `IndexPage` object; each
    handler becomes a method that runs to completion.

    The outside world of one generation run is a `Providers` value: the three
    text-generation calls (already parsed, as `GeminiService` returns them, an
    `Err` where the promise rejects), the image search, `crypto.randomUUID`
    (a function of which call asks for the id) and `new Date()` (a function
    of the title being processed). */
module IndexPage {
  import opened Wrappers
  import opened Types
  import Seqs
  import ArticleApi
  import TopicPanel = RelatedTopics

  /** `progress.stage`: `""`, `"topics"`, `"titles"` or `"articles"`. */
  datatype Stage = NoStage | TopicsStage | TitlesStage | ArticlesStage

  datatype Progress = Progress(current: nat, total: nat, stage: Stage)

  /** `{ current: 0, total: 0, stage: "" }`. */
  const ResetProgress := Progress(0, 0, NoStage)

  /** Which `crypto.randomUUID()` call an identifier comes from. */
  datatype IdRequest =
    | NewTopicId(index: nat)
    | TitleId(topicIndex: nat, titleIndex: nat)
    | ArticleId(titleIndex: nat)
    | RelatedTopicId(topicIndex: nat, index: nat)

  datatype Providers = Providers(
    /** `generateTitles(name)`, its `titles` field. */
    titles: string -> Result<seq<string>>,
    /** `generateArticle(title, topicName)`, its `article` field. */
    article: (string, string) -> Result<string>,
    /** `searchImages(query)`, which never rejects. */
    image: string -> Option<string>,
    /** `generateRelatedTopics(name)`, its `topics` field. */
    related: string -> Result<seq<string>>,
    mintId: IdRequest -> Id,
    clock: nat -> int)

  /** Results of the generation run that are committed together. */
  datatype Batch = Batch(related: seq<Topic>, articles: seq<Article>)

  /** `isApiKeysSet`, that is `!!apiKeys?.geminiApiKey`. */
  predicate KeysSet(keys: Option<ApiKeys>)
  {
    keys.Some? && keys.value.geminiApiKey != ""
  }

  /** A `PexelsService` is created only for a truthy Pexels key. */
  predicate HasPexels(keys: ApiKeys)
  {
    keys.pexelsApiKey.Some? && keys.pexelsApiKey.value != ""
  }

  // ---------------------------------------------------------------------
  // Promise.all
  // ---------------------------------------------------------------------

  /** `Promise.all` over promises listed in order: the values in the same order, or the
      error of the first rejected promise in the list. */
  function All<T>(rs: seq<Result<T>>): (r: Result<seq<T>>)
    ensures r.Ok? <==> forall i :: 0 <= i < |rs| ==> rs[i].Ok?
    ensures r.Ok? ==> |r.value| == |rs| && forall i :: 0 <= i < |rs| ==> r.value[i] == rs[i].value
    ensures r.Err? ==> exists i :: 0 <= i < |rs| && rs[i] == Err(r.error)
                                   && forall j :: 0 <= j < i ==> rs[j].Ok?
  {
    if rs == [] then Ok([])
    else match rs[0]
      case Err(e) => Err(e)
      case Ok(v) =>
        match All(rs[1..])
        case Err(e) =>
          var i :| 0 <= i < |rs[1..]| && rs[1..][i] == Err(e) && forall j :: 0 <= j < i ==> rs[1..][j].Ok?;
          assert rs[i + 1] == Err(e);
          Err(e)
        case Ok(vs) => Ok([v] + vs)
  }

  /** Adding a promise at the end adds its value at the end. */
  lemma {:induction false} AllAppend<T>(rs: seq<Result<T>>, x: Result<T>)
    requires All(rs).Ok? && x.Ok?
    ensures All(rs + [x]) == Ok(All(rs).value + [x.value])
  {
    if rs != [] {
      assert (rs + [x])[0] == rs[0] && (rs + [x])[1..] == rs[1..] + [x];
      assert All(rs[1..]).Ok?;
      AllAppend(rs[1..], x);
      assert All(rs).value == [rs[0].value] + All(rs[1..]).value;
      assert All(rs + [x]).Ok?;
      assert All(rs + [x]).value == [rs[0].value] + All(rs[1..] + [x]).value;
      assert All(rs + [x]).value == All(rs).value + [x.value];
    } else {
      assert rs + [x] == [x] && [x][1..] == [];
      assert All([x][1..]) == Ok([]);
      assert All([x]) == Ok([x.value] + []);
      assert [x.value] + [] == All(rs).value + [x.value];
    }
  }

  // ---------------------------------------------------------------------
  // handleTopicSubmit: topic creation
  // ---------------------------------------------------------------------

  /** `topicNames.map(name => ({ id: crypto.randomUUID(), name, isUserGenerated: true }))`. */
  function NewTopics(names: seq<string>, mintId: IdRequest -> Id): (r: seq<Topic>)
    ensures |r| == |names|
    ensures forall i :: 0 <= i < |r| ==> r[i].name == names[i] && r[i].isUserGenerated
    ensures forall i :: 0 <= i < |r| ==> r[i].id == mintId(NewTopicId(i))
  {
    seq(|names|, i requires 0 <= i < |names| => Topic(mintId(NewTopicId(i)), names[i], true))
  }

  /** No two topics share an id. */
  predicate DistinctIds(topics: seq<Topic>)
  {
    forall i, j :: 0 <= i < j < |topics| ==> topics[i].id != topics[j].id
  }

  /** What `crypto.randomUUID()` provides: different calls give different ids, and none
      of them is the id of a topic the page already holds. */
  ghost predicate FreshIds(mintId: IdRequest -> Id, known: seq<Topic>)
  {
    && (forall a: IdRequest, b: IdRequest :: a != b ==> mintId(a) != mintId(b))
    && (forall a: IdRequest, k :: 0 <= k < |known| ==> mintId(a) != known[k].id)
  }

  /** With fresh ids, the new topics have distinct ids, none of them already held, so
      the page's topics keep distinct ids once the new ones are appended. */
  lemma NewTopicsFresh(names: seq<string>, mintId: IdRequest -> Id, known: seq<Topic>)
    requires FreshIds(mintId, known)
    ensures DistinctIds(NewTopics(names, mintId))
    ensures forall i, k :: 0 <= i < |names| && 0 <= k < |known| ==> NewTopics(names, mintId)[i].id != known[k].id
    ensures DistinctIds(known) ==> DistinctIds(known + NewTopics(names, mintId))
  {
    var created := NewTopics(names, mintId);
    forall i, j | 0 <= i < j < |created|
      ensures created[i].id != created[j].id
    {
      assert NewTopicId(i) != NewTopicId(j);
    }
    if DistinctIds(known) {
      var all := known + created;
      forall i, j | 0 <= i < j < |all|
        ensures all[i].id != all[j].id
      {
        if j >= |known| {
          if i >= |known| {
            assert all[i] == created[i - |known|] && all[j] == created[j - |known|];
          } else {
            assert all[j].id == mintId(NewTopicId(j - |known|));
          }
        }
      }
    }
  }

  // ---------------------------------------------------------------------
  // generateContent, step 1: titles
  // ---------------------------------------------------------------------

  /** The titles of topic number `k` of the batch, each tagged with the topic's id. */
  function TitlesOf(names: seq<string>, topicId: Id, k: nat, mintId: IdRequest -> Id): (r: seq<ArticleTitle>)
    ensures |r| == |names|
    ensures forall j :: 0 <= j < |r| ==> r[j].title == names[j] && r[j].topicId == topicId
  {
    seq(|names|, j requires 0 <= j < |names| => ArticleTitle(mintId(TitleId(k, j)), names[j], topicId))
  }

  /** The promise the title map builds for topic number `k`. */
  function TitleBatch(p: Providers, topic: Topic, k: nat): Result<seq<ArticleTitle>>
  {
    match p.titles(topic.name)
    case Err(e) => Err(e)
    case Ok(names) => Ok(TitlesOf(names, topic.id, k, p.mintId))
  }

  function TitleBatches(p: Providers, topics: seq<Topic>): seq<Result<seq<ArticleTitle>>>
  {
    seq(|topics|, k requires 0 <= k < |topics| => TitleBatch(p, topics[k], k))
  }

  /** `(await Promise.all(allTitlesPromises)).flat()`. */
  function AllTitles(p: Providers, topics: seq<Topic>): Result<seq<ArticleTitle>>
  {
    match All(TitleBatches(p, topics))
    case Err(e) => Err(e)
    case Ok(batches) => Ok(Seqs.Flatten(batches))
  }

  /** Step 1 succeeds exactly when every topic gets its titles. */
  lemma AllTitlesOk(p: Providers, topics: seq<Topic>)
    ensures AllTitles(p, topics).Ok? <==> forall k :: 0 <= k < |topics| ==> p.titles(topics[k].name).Ok?
  {
    var rs := TitleBatches(p, topics);
    assert forall k :: 0 <= k < |topics| ==> (rs[k].Ok? <==> p.titles(topics[k].name).Ok?);
  }

  /** The title list is the titles of the earlier topics followed by all the titles of
      the next topic, in the order the provider gave them: batch order, and no capping. */
  lemma AllTitlesAppend(p: Providers, topics: seq<Topic>, t: Topic)
    requires AllTitles(p, topics).Ok? && p.titles(t.name).Ok?
    ensures AllTitles(p, topics + [t])
            == Ok(AllTitles(p, topics).value + TitlesOf(p.titles(t.name).value, t.id, |topics|, p.mintId))
  {
    var rs := TitleBatches(p, topics);
    var x := TitleBatch(p, t, |topics|);
    assert TitleBatches(p, topics + [t]) == rs + [x];
    AllAppend(rs, x);
    Seqs.FlattenAppend(All(rs).value, [x.value]);
    assert [x.value][1..] == [];
    assert Seqs.Flatten([x.value]) == x.value;
  }

  /** Every title is tagged with the id of a topic of the batch. */
  lemma AllTitlesTagged(p: Providers, topics: seq<Topic>, title: ArticleTitle)
    requires AllTitles(p, topics).Ok? && title in AllTitles(p, topics).value
    ensures exists k :: 0 <= k < |topics| && title.topicId == topics[k].id
  {
    var batches := All(TitleBatches(p, topics)).value;
    Seqs.FlattenMembership(batches, title);
    var k :| 0 <= k < |batches| && title in batches[k];
    var j :| 0 <= j < |batches[k]| && batches[k][j] == title;
  }

  // ---------------------------------------------------------------------
  // generateContent, step 2: one article per title
  // ---------------------------------------------------------------------

  /** `topicsToProcess.find(t => t.id === id)`. */
  function FindTopic(topics: seq<Topic>, id: Id): (r: Option<Topic>)
    ensures r.Some? ==> exists k :: 0 <= k < |topics| && topics[k] == r.value && r.value.id == id
                                    && forall j :: 0 <= j < k ==> topics[j].id != id
    ensures r.None? <==> forall k :: 0 <= k < |topics| ==> topics[k].id != id
    ensures DistinctIds(topics) ==> forall k :: 0 <= k < |topics| && topics[k].id == id ==> r == Some(topics[k])
  {
    if topics == [] then None
    else if topics[0].id == id then Some(topics[0])
    else
      var r := FindTopic(topics[1..], id);
      assert r.Some? ==> exists k :: 0 <= k < |topics| && topics[k] == r.value
                                     && forall j :: 0 <= j < k ==> topics[j].id != id by {
        if r.Some? {
          var k :| 0 <= k < |topics[1..]| && topics[1..][k] == r.value
                   && forall j :: 0 <= j < k ==> topics[1..][j].id != id;
          assert topics[k + 1] == r.value;
          forall j | 0 <= j < k + 1
            ensures topics[j].id != id
          {
            if j > 0 {
              assert topics[j] == topics[1..][j - 1];
            }
          }
        }
      }
      r
  }

  /** The body of the loop for title number `i`, once its topic is found. */
  function BuildArticle(p: Providers, pexels: bool, topic: Topic, title: ArticleTitle, i: nat): (r: Result<Article>)
    ensures r.Ok? <==> p.article(title.title, topic.name).Ok?
    ensures r.Ok? ==> r.value.title == title.title && r.value.titleId == title.id
                      && r.value.topicId == topic.id
                      && r.value.content == p.article(title.title, topic.name).value
    ensures r.Ok? && !pexels ==> r.value.imageUrl.None?
  {
    match p.article(title.title, topic.name)
    case Err(e) => Err(e)
    case Ok(content) =>
      var imageUrl := if pexels then p.image(topic.name + " " + title.title) else None;
      Ok(Article(p.mintId(ArticleId(i)), title.title, content, topic.id, title.id, imageUrl, p.clock(i)))
  }

  /** The loop body for title number `i`, given the articles built before it: a title
      whose topic is not in the batch is skipped, a failed article ends the loop. */
  function LoopStep(p: Providers, pexels: bool, topics: seq<Topic>, title: ArticleTitle, i: nat,
                    prev: seq<Article>): Result<seq<Article>>
  {
    match FindTopic(topics, title.topicId)
    case None => Ok(prev)
    case Some(topic) =>
      match BuildArticle(p, pexels, topic, title, i)
      case Err(e) => Err(e)
      case Ok(a) => Ok(prev + [a])
  }

  /** `newArticles` after the loop has processed the first `n` titles, or the error that
      ended it. */
  function ArticlesOf(p: Providers, pexels: bool, topics: seq<Topic>, titles: seq<ArticleTitle>, n: nat)
    : Result<seq<Article>>
    requires n <= |titles|
  {
    if n == 0 then Ok([])
    else match ArticlesOf(p, pexels, topics, titles, n - 1)
      case Err(e) => Err(e)
      case Ok(prev) => LoopStep(p, pexels, topics, titles[n - 1], n - 1, prev)
  }

  /** One more turn of the loop. */
  lemma ArticlesOfNext(p: Providers, pexels: bool, topics: seq<Topic>, titles: seq<ArticleTitle>,
                       i: nat, n: nat, prev: seq<Article>)
    requires n == i + 1 <= |titles| && ArticlesOf(p, pexels, topics, titles, i) == Ok(prev)
    ensures ArticlesOf(p, pexels, topics, titles, n) == LoopStep(p, pexels, topics, titles[i], i, prev)
  {
  }

  /** The titles whose topic is in the batch: the ones the loop does not skip. */
  function Found(topics: seq<Topic>, titles: seq<ArticleTitle>): seq<ArticleTitle>
  {
    Seqs.Filter((t: ArticleTitle) => FindTopic(topics, t.topicId).Some?, titles)
  }

  /** A failure stops the loop: the error is the result whatever follows. */
  lemma {:induction false} ArticlesOfErrorStops(p: Providers, pexels: bool, topics: seq<Topic>,
                                                titles: seq<ArticleTitle>, i: nat, n: nat)
    requires i <= n <= |titles| && ArticlesOf(p, pexels, topics, titles, i).Err?
    decreases n
    ensures ArticlesOf(p, pexels, topics, titles, n) == ArticlesOf(p, pexels, topics, titles, i)
  {
    if i < n {
      ArticlesOfErrorStops(p, pexels, topics, titles, i, n - 1);
    }
  }

  /** One article per title whose topic is found, in title order, carrying that title's
      text and id and the id of its topic. */
  lemma {:induction false} ArticlesFollowTitles(p: Providers, pexels: bool, topics: seq<Topic>,
                                                titles: seq<ArticleTitle>, n: nat)
    requires n <= |titles| && ArticlesOf(p, pexels, topics, titles, n).Ok?
    ensures var arts := ArticlesOf(p, pexels, topics, titles, n).value;
            var kept := Found(topics, titles[..n]);
            |arts| == |kept|
            && forall k :: 0 <= k < |arts| ==>
                 arts[k].title == kept[k].title && arts[k].titleId == kept[k].id
                 && arts[k].topicId == kept[k].topicId
  {
    if n > 0 {
      ArticlesFollowTitles(p, pexels, topics, titles, n - 1);
      var keep := (t: ArticleTitle) => FindTopic(topics, t.topicId).Some?;
      assert titles[..n] == titles[..n - 1] + [titles[n - 1]];
      Seqs.FilterAppend(keep, titles[..n - 1], [titles[n - 1]]);
      assert Seqs.Filter(keep, [titles[n - 1]]) == (if keep(titles[n - 1]) then [titles[n - 1]] else [])
        by { assert [titles[n - 1]][1..] == []; }
    }
  }

  /** Every article's topic is a topic of the batch. */
  lemma ArticleTopicInBatch(p: Providers, pexels: bool, topics: seq<Topic>,
                            titles: seq<ArticleTitle>, n: nat, k: nat)
    requires n <= |titles| && ArticlesOf(p, pexels, topics, titles, n).Ok?
    requires k < |ArticlesOf(p, pexels, topics, titles, n).value|
    ensures exists t :: t in topics && t.id == ArticlesOf(p, pexels, topics, titles, n).value[k].topicId
  {
    ArticlesFollowTitles(p, pexels, topics, titles, n);
    var kept := Found(topics, titles[..n]);
    assert FindTopic(topics, kept[k].topicId).Some?;
  }

  /** The titles of step 1 all belong to the batch, so the loop skips none of them. */
  lemma NoTitleSkipped(p: Providers, topics: seq<Topic>)
    requires AllTitles(p, topics).Ok?
    ensures Found(topics, AllTitles(p, topics).value) == AllTitles(p, topics).value
  {
    var titles := AllTitles(p, topics).value;
    forall t | t in titles
      ensures FindTopic(topics, t.topicId).Some?
    {
      AllTitlesTagged(p, topics, t);
    }
    Seqs.FilterAll((t: ArticleTitle) => FindTopic(topics, t.topicId).Some?, titles);
  }

  // ---------------------------------------------------------------------
  // generateContent, step 3: related topics
  // ---------------------------------------------------------------------

  /** The related topics of topic number `k`, marked as not user-generated. */
  function RelatedOf(names: seq<string>, k: nat, mintId: IdRequest -> Id): (r: seq<Topic>)
    ensures |r| == |names|
    ensures forall j :: 0 <= j < |r| ==> r[j].name == names[j] && !r[j].isUserGenerated
  {
    seq(|names|, j requires 0 <= j < |names| => Topic(mintId(RelatedTopicId(k, j)), names[j], false))
  }

  function RelatedBatch(p: Providers, topic: Topic, k: nat): Result<seq<Topic>>
  {
    match p.related(topic.name)
    case Err(e) => Err(e)
    case Ok(names) => Ok(RelatedOf(names, k, p.mintId))
  }

  function RelatedBatches(p: Providers, topics: seq<Topic>): seq<Result<seq<Topic>>>
  {
    seq(|topics|, k requires 0 <= k < |topics| => RelatedBatch(p, topics[k], k))
  }

  /** `(await Promise.all(relatedTopicsPromises)).flat()`. */
  function RelatedTopics(p: Providers, topics: seq<Topic>): Result<seq<Topic>>
  {
    match All(RelatedBatches(p, topics))
    case Err(e) => Err(e)
    case Ok(batches) => Ok(Seqs.Flatten(batches))
  }

  /** Related topics come in batch order, each topic's list whole and in order. */
  lemma RelatedTopicsAppend(p: Providers, topics: seq<Topic>, t: Topic)
    requires RelatedTopics(p, topics).Ok? && p.related(t.name).Ok?
    ensures RelatedTopics(p, topics + [t])
            == Ok(RelatedTopics(p, topics).value + RelatedOf(p.related(t.name).value, |topics|, p.mintId))
  {
    var rs := RelatedBatches(p, topics);
    var x := RelatedBatch(p, t, |topics|);
    assert RelatedBatches(p, topics + [t]) == rs + [x];
    AllAppend(rs, x);
    Seqs.FlattenAppend(All(rs).value, [x.value]);
    assert [x.value][1..] == [];
    assert Seqs.Flatten([x.value]) == x.value;
  }

  /** No related topic is marked as user-generated. */
  lemma RelatedNotUserGenerated(p: Providers, topics: seq<Topic>, t: Topic)
    requires RelatedTopics(p, topics).Ok? && t in RelatedTopics(p, topics).value
    ensures !t.isUserGenerated
  {
    var batches := All(RelatedBatches(p, topics)).value;
    Seqs.FlattenMembership(batches, t);
    var k :| 0 <= k < |batches| && t in batches[k];
    var j :| 0 <= j < |batches[k]| && batches[k][j] == t;
  }

  // ---------------------------------------------------------------------
  // generateContent as a whole
  // ---------------------------------------------------------------------

  /** What a run commits, or the error of the first stage that failed. */
  function Generation(p: Providers, pexels: bool, topics: seq<Topic>): Result<Batch>
  {
    match AllTitles(p, topics)
    case Err(e) => Err(e)
    case Ok(titles) =>
      match ArticlesOf(p, pexels, topics, titles, |titles|)
      case Err(e) => Err(e)
      case Ok(arts) =>
        match RelatedTopics(p, topics)
        case Err(e) => Err(e)
        case Ok(related) => Ok(Batch(related, arts))
  }

  /** A run succeeds exactly when all three stages do; it then has one article per
      title, in title order. */
  lemma GenerationArticles(p: Providers, pexels: bool, topics: seq<Topic>)
    ensures Generation(p, pexels, topics).Ok?
            <==> && AllTitles(p, topics).Ok?
                 && ArticlesOf(p, pexels, topics, AllTitles(p, topics).value, |AllTitles(p, topics).value|).Ok?
                 && RelatedTopics(p, topics).Ok?
    ensures Generation(p, pexels, topics).Ok? ==>
              var titles := AllTitles(p, topics).value;
              var arts := Generation(p, pexels, topics).value.articles;
              |arts| == |titles|
              && forall k :: 0 <= k < |arts| ==> arts[k].title == titles[k].title && arts[k].titleId == titles[k].id
  {
    if Generation(p, pexels, topics).Ok? {
      var titles := AllTitles(p, topics).value;
      ArticlesFollowTitles(p, pexels, topics, titles, |titles|);
      NoTitleSkipped(p, topics);
      assert titles[..|titles|] == titles;
    }
  }

  // ---------------------------------------------------------------------
  // handleSelectTopic
  // ---------------------------------------------------------------------

  /** The new selection after clicking `topic`. */
  function ToggleSelection(selected: seq<Topic>, topic: Topic): seq<Topic>
  {
    if TopicPanel.IsTopicSelected(selected, topic)
    then Seqs.Filter((t: Topic) => t.id != topic.id, selected)
    else selected + [topic]
  }

  /** Clicking a selected topic removes every topic with its id and keeps the others;
      clicking another one appends it. */
  lemma ToggleSelectionEffect(selected: seq<Topic>, topic: Topic)
    ensures TopicPanel.IsTopicSelected(selected, topic) ==>
              !TopicPanel.IsTopicSelected(ToggleSelection(selected, topic), topic)
              && (forall t :: t in selected && t.id != topic.id ==> t in ToggleSelection(selected, topic))
              && (forall t :: t in ToggleSelection(selected, topic) ==> t in selected)
    ensures !TopicPanel.IsTopicSelected(selected, topic) ==>
              ToggleSelection(selected, topic) == selected + [topic]
              && TopicPanel.IsTopicSelected(ToggleSelection(selected, topic), topic)
  {
    var r := ToggleSelection(selected, topic);
    if !TopicPanel.IsTopicSelected(selected, topic) {
      assert r[|selected|] == topic;
    } else {
      forall t | t in selected && t.id != topic.id
        ensures t in r
      {
        var k :| 0 <= k < |selected| && selected[k] == t;
      }
    }
  }

  /** Clicking a topic twice gives back the selection it started from. */
  lemma ToggleTwice(selected: seq<Topic>, topic: Topic)
    requires !TopicPanel.IsTopicSelected(selected, topic)
    ensures ToggleSelection(ToggleSelection(selected, topic), topic) == selected
  {
    var keep := (t: Topic) => t.id != topic.id;
    ToggleSelectionEffect(selected, topic);
    Seqs.FilterAppend(keep, selected, [topic]);
    Seqs.FilterAll(keep, selected);
    assert Seqs.Filter(keep, [topic]) == [] by { assert [topic][1..] == []; }
  }

  // ---------------------------------------------------------------------
  // The page
  // ---------------------------------------------------------------------

  class IndexPage {
    var topics: seq<Topic>
    var selectedTopics: seq<Topic>
    var articles: seq<Article>
    var isGenerating: bool
    var progress: Progress
    /** `apiKeys` of the surrounding `ApiProvider`. */
    const keys: Option<ApiKeys>
    /** The module-level article store the page writes to. */
    const store: ArticleApi.ArticleStore

    constructor (keys: Option<ApiKeys>, store: ArticleApi.ArticleStore)
      ensures topics == [] && selectedTopics == [] && articles == []
      ensures !isGenerating && progress == ResetProgress
      ensures this.keys == keys && this.store == store
    {
      topics := [];
      selectedTopics := [];
      articles := [];
      isGenerating := false;
      progress := ResetProgress;
      this.keys := keys;
      this.store := store;
    }

    /** `handleTopicSubmit`: nothing without keys; otherwise the new topics are appended
        and selected, and a generation run starts for them. */
    method HandleTopicSubmit(names: seq<string>, p: Providers)
      modifies this, store
      ensures !KeysSet(keys) ==> unchanged(this) && unchanged(store)
      ensures KeysSet(keys) ==>
                var created := NewTopics(names, p.mintId);
                var outcome := Generation(p, HasPexels(keys.value), created);
                && selectedTopics == created
                && topics == old(topics) + created + (if outcome.Ok? then outcome.value.related else [])
                && articles == old(articles) + (if outcome.Ok? then outcome.value.articles else [])
                && store.articles == old(store.articles) + (if outcome.Ok? then outcome.value.articles else [])
                && !isGenerating && progress == ResetProgress
    {
      if !KeysSet(keys) {
        return;
      }
      var created := NewTopics(names, p.mintId);
      topics := topics + created;
      selectedTopics := created;
      GenerateContent(created, p);
    }

    /** `generateContent`: commits the related topics and the articles, and stores the
        articles, only when every stage succeeds; always ends idle with the progress reset. */
    method GenerateContent(toProcess: seq<Topic>, p: Providers)
      modifies this, store
      ensures !KeysSet(keys) ==> unchanged(this) && unchanged(store)
      ensures KeysSet(keys) ==>
                var outcome := Generation(p, HasPexels(keys.value), toProcess);
                && topics == old(topics) + (if outcome.Ok? then outcome.value.related else [])
                && articles == old(articles) + (if outcome.Ok? then outcome.value.articles else [])
                && store.articles == old(store.articles) + (if outcome.Ok? then outcome.value.articles else [])
                && !isGenerating && progress == ResetProgress
      ensures selectedTopics == old(selectedTopics)
    {
      if !KeysSet(keys) {
        return;
      }
      var pexels := HasPexels(keys.value);
      isGenerating := true;
      progress := Progress(0, |toProcess|, TopicsStage);
      if |toProcess| > 0 {
        progress := Progress(|toProcess|, |toProcess|, TitlesStage);
      }
      var titles := AllTitles(p, toProcess);
      if titles.Ok? {
        progress := Progress(0, |titles.value|, ArticlesStage);
        var built := BuildArticles(p, pexels, toProcess, titles.value);
        if built.Ok? {
          var related := RelatedTopics(p, toProcess);
          if related.Ok? {
            topics := topics + related.value;
            articles := articles + built.value;
            store.StoreArticles(built.value);
          }
        }
      }
      isGenerating := false;
      progress := ResetProgress;
    }

    /** The loop of step 2: one article per title whose topic is found, stopping at the
        first failure. */
    method BuildArticles(p: Providers, pexels: bool, toProcess: seq<Topic>, titles: seq<ArticleTitle>)
      returns (r: Result<seq<Article>>)
      modifies this
      ensures r == ArticlesOf(p, pexels, toProcess, titles, |titles|)
      ensures topics == old(topics) && selectedTopics == old(selectedTopics) && articles == old(articles)
      ensures isGenerating == old(isGenerating)
    {
      var newArticles: seq<Article> := [];
      var i := 0;
      while i < |titles|
        invariant 0 <= i <= |titles|
        invariant ArticlesOf(p, pexels, toProcess, titles, i) == Ok(newArticles)
        invariant topics == old(topics) && selectedTopics == old(selectedTopics) && articles == old(articles)
        invariant isGenerating == old(isGenerating)
      {
        var title := titles[i];
        var next := i + 1;
        ArticlesOfNext(p, pexels, toProcess, titles, i, next, newArticles);
        var topic := FindTopic(toProcess, title.topicId);
        if topic.None? {
          i := next;
          continue;
        }
        progress := Progress(next, |titles|, ArticlesStage);
        var result := BuildArticle(p, pexels, topic.value, title, i);
        if result.Err? {
          ArticlesOfErrorStops(p, pexels, toProcess, titles, next, |titles|);
          return Err(result.error);
        }
        newArticles := newArticles + [result.value];
        i := next;
      }
      r := Ok(newArticles);
    }

    /** `handleSelectTopic`. */
    method HandleSelectTopic(topic: Topic)
      modifies this
      ensures selectedTopics == ToggleSelection(old(selectedTopics), topic)
      ensures topics == old(topics) && articles == old(articles)
      ensures isGenerating == old(isGenerating) && progress == old(progress)
    {
      selectedTopics := ToggleSelection(selectedTopics, topic);
    }

    /** `handleGenerateMore`: refuses an empty selection, otherwise runs a generation for
        the selected topics. */
    method HandleGenerateMore(p: Providers)
      modifies this, store
      ensures old(selectedTopics) == [] ==> unchanged(this) && unchanged(store)
      ensures old(selectedTopics) != [] && !KeysSet(keys) ==> unchanged(this) && unchanged(store)
      ensures old(selectedTopics) != [] && KeysSet(keys) ==>
                var outcome := Generation(p, HasPexels(keys.value), old(selectedTopics));
                && topics == old(topics) + (if outcome.Ok? then outcome.value.related else [])
                && articles == old(articles) + (if outcome.Ok? then outcome.value.articles else [])
                && store.articles == old(store.articles) + (if outcome.Ok? then outcome.value.articles else [])
                && !isGenerating && progress == ResetProgress
      ensures selectedTopics == old(selectedTopics)
    {
      if |selectedTopics| == 0 {
        return;
      }
      GenerateContent(selectedTopics, p);
    }
  }
}
