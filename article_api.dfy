/** The in-memory article store of src/api/articleApi.ts: a module-level
    array of articles behind six exported functions. The array becomes the
    field of one `ArticleStore` object; the functions become its methods. */
module ArticleApi {
  import opened Wrappers
  import opened Types
  import Seqs

  /** `articles.filter(article => article.topicId === topicId)`. */
  function ArticlesOfTopic(articles: seq<Article>, topicId: Id): seq<Article>
  {
    Seqs.Filter((a: Article) => a.topicId == topicId, articles)
  }

  /** Index of the first article whose id is `id`, as `findIndex` would give it. */
  function FirstIndexWithId(articles: seq<Article>, id: Id): (r: Option<nat>)
    ensures r.Some? ==> r.value < |articles| && articles[r.value].id == id
    ensures r.Some? ==> forall j :: 0 <= j < r.value ==> articles[j].id != id
    ensures r.None? ==> forall j :: 0 <= j < |articles| ==> articles[j].id != id
  {
    if articles == [] then None
    else if articles[0].id == id then Some(0)
    else match FirstIndexWithId(articles[1..], id)
      case None => None
      case Some(k) => Some(k + 1)
  }

  /** `articles.find(article => article.id === id)`. */
  function FindById(articles: seq<Article>, id: Id): Option<Article>
  {
    match FirstIndexWithId(articles, id)
    case None => None
    case Some(k) => Some(articles[k])
  }

  /** The topic filter returns exactly the stored articles of that topic. */
  lemma ArticlesOfTopicExact(articles: seq<Article>, topicId: Id, a: Article)
    ensures a in ArticlesOfTopic(articles, topicId) <==> a in articles && a.topicId == topicId
  {
    var r := ArticlesOfTopic(articles, topicId);
    if a in r {
      var i :| 0 <= i < |r| && r[i] == a;
    }
    if a in articles && a.topicId == topicId {
      var i :| 0 <= i < |articles| && articles[i] == a;
    }
  }

  /** Store order is kept: the topic filter of a concatenation is the concatenation of the filters. */
  lemma ArticlesOfTopicAppend(xs: seq<Article>, ys: seq<Article>, topicId: Id)
    ensures ArticlesOfTopic(xs + ys, topicId) == ArticlesOfTopic(xs, topicId) + ArticlesOfTopic(ys, topicId)
  {
    Seqs.FilterAppend((a: Article) => a.topicId == topicId, xs, ys);
  }

  /** Appending articles never changes which article a lookup by id finds, when the id
      was already present; otherwise the lookup searches the new articles. */
  lemma {:induction false} FindByIdAppend(xs: seq<Article>, ys: seq<Article>, id: Id)
    ensures FindById(xs, id).Some? ==> FindById(xs + ys, id) == FindById(xs, id)
    ensures FindById(xs, id).None? ==> FindById(xs + ys, id) == FindById(ys, id)
  {
    if xs == [] {
      assert xs + ys == ys;
    } else {
      assert (xs + ys)[0] == xs[0];
      assert (xs + ys)[1..] == xs[1..] + ys;
      FindByIdAppend(xs[1..], ys, id);
    }
  }

  class ArticleStore {
    /** The module-level `articles` array. */
    var articles: seq<Article>

    /** The store starts empty (`let articles: Article[] = []`). */
    constructor ()
      ensures articles == []
    {
      articles := [];
    }

    /** `storeArticle`: appends one article at the end. */
    method StoreArticle(article: Article)
      modifies this
      ensures articles == old(articles) + [article]
    {
      articles := articles + [article];
    }

    /** `storeArticles`: the old contents followed by the new articles, in their order. */
    method StoreArticles(newArticles: seq<Article>)
      modifies this
      ensures articles == old(articles) + newArticles
    {
      articles := articles + newArticles;
    }

    /** `getAllArticles`: a copy of the whole store; the store is not modified. */
    method GetAllArticles() returns (r: seq<Article>)
      ensures r == articles
    {
      r := articles;
    }

    /** `getArticlesByTopic`: exactly the stored articles with that topic, in store order. */
    method GetArticlesByTopic(topicId: Id) returns (r: seq<Article>)
      ensures r == ArticlesOfTopic(articles, topicId)
      ensures forall i :: 0 <= i < |r| ==> r[i] in articles && r[i].topicId == topicId
      ensures forall a :: a in articles && a.topicId == topicId ==> a in r
    {
      r := ArticlesOfTopic(articles, topicId);
      forall a | a in articles && a.topicId == topicId
        ensures a in r
      {
        ArticlesOfTopicExact(articles, topicId, a);
      }
    }

    /** `getArticleById`: the first stored article with that id, or undefined. */
    method GetArticleById(id: Id) returns (r: Option<Article>)
      ensures r.Some? ==> exists k :: 0 <= k < |articles| && articles[k] == r.value && r.value.id == id
                                      && forall j :: 0 <= j < k ==> articles[j].id != id
      ensures r.None? <==> forall j :: 0 <= j < |articles| ==> articles[j].id != id
    {
      r := FindById(articles, id);
    }

    /** `clearArticles`: the store is empty afterwards. */
    method ClearArticles()
      modifies this
      ensures articles == []
    {
      articles := [];
    }
  }
}
