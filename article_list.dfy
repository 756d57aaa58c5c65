/** The grouping of src/components/ArticleList.tsx: the articles shown under
    each topic, and the empty state. */
module ArticleList {
  import opened Types
  import Seqs
  import ArticleApi

  /** One section of the list: a topic and its articles. */
  datatype Group = Group(topic: Topic, articles: seq<Article>)

  /** What the component renders. */
  datatype View = EmptyState | Sections(groups: seq<Group>)

  /** The group of one topic, before empty groups are dropped. */
  function GroupOf(articles: seq<Article>, topic: Topic): Group
  {
    Group(topic, ArticleApi.ArticlesOfTopic(articles, topic.id))
  }

  predicate NonEmptyGroup(g: Group)
  {
    |g.articles| > 0
  }

  /** `articlesGroupedByTopic`: one group per topic, in topic order, without the
      topics that have no article. */
  function GroupByTopic(topics: seq<Topic>, articles: seq<Article>): seq<Group>
  {
    Seqs.Filter(NonEmptyGroup, Seqs.Map((t: Topic) => GroupOf(articles, t), topics))
  }

  /** Groups follow the topic order: one more topic adds its group at the end, and
      only when it has articles. */
  lemma GroupByTopicAppend(topics: seq<Topic>, t: Topic, articles: seq<Article>)
    ensures GroupByTopic(topics + [t], articles)
            == GroupByTopic(topics, articles)
               + (if ArticleApi.ArticlesOfTopic(articles, t.id) != [] then [GroupOf(articles, t)] else [])
  {
    var f := (t: Topic) => GroupOf(articles, t);
    Seqs.MapAppend(f, topics, [t]);
    Seqs.FilterAppend(NonEmptyGroup, Seqs.Map(f, topics), Seqs.Map(f, [t]));
    assert Seqs.Map(f, [t]) == [GroupOf(articles, t)];
    assert [GroupOf(articles, t)][1..] == [];
  }

  /** Every group is non-empty, belongs to a listed topic, and holds exactly that
      topic's articles in their original order. */
  lemma GroupsAreTopicArticles(topics: seq<Topic>, articles: seq<Article>, g: Group)
    requires g in GroupByTopic(topics, articles)
    ensures g.topic in topics
    ensures g.articles == ArticleApi.ArticlesOfTopic(articles, g.topic.id) && g.articles != []
    ensures forall a :: a in g.articles ==> a in articles && a.topicId == g.topic.id
  {
    var mapped := Seqs.Map((t: Topic) => GroupOf(articles, t), topics);
    var r := GroupByTopic(topics, articles);
    var i :| 0 <= i < |r| && r[i] == g;
    var k :| 0 <= k < |mapped| && mapped[k] == g;
    forall a | a in g.articles
      ensures a in articles && a.topicId == g.topic.id
    {
      ArticleApi.ArticlesOfTopicExact(articles, g.topic.id, a);
    }
  }

  /** An article is shown exactly when its topic is listed. In particular an article
      whose topic matches no topic appears in no group. */
  lemma ArticleShownIffTopicListed(topics: seq<Topic>, articles: seq<Article>, a: Article)
    requires a in articles
    ensures (exists g :: g in GroupByTopic(topics, articles) && a in g.articles)
            <==> (exists k :: 0 <= k < |topics| && topics[k].id == a.topicId)
  {
    var mapped := Seqs.Map((t: Topic) => GroupOf(articles, t), topics);
    var r := GroupByTopic(topics, articles);
    if exists g :: g in r && a in g.articles {
      var g :| g in r && a in g.articles;
      GroupsAreTopicArticles(topics, articles, g);
      var k :| 0 <= k < |topics| && topics[k] == g.topic;
    }
    if exists k :: 0 <= k < |topics| && topics[k].id == a.topicId {
      var k :| 0 <= k < |topics| && topics[k].id == a.topicId;
      ArticleApi.ArticlesOfTopicExact(articles, topics[k].id, a);
      assert mapped[k] == GroupOf(articles, topics[k]);
      assert NonEmptyGroup(mapped[k]);
      assert mapped[k] in r;
    }
  }

  /** The component: the empty state when there is no article at all, the groups
      otherwise. */
  function Render(topics: seq<Topic>, articles: seq<Article>): (v: View)
    ensures v.EmptyState? <==> articles == []
  {
    if |articles| == 0 then EmptyState else Sections(GroupByTopic(topics, articles))
  }

  /** The count badge of a group: singular exactly for one article. */
  function CountLabel(n: nat): (word: string)
    ensures word == "article" <==> n == 1
    ensures word == "articles" <==> n != 1
  {
    if n == 1 then "article" else "articles"
  }
}
