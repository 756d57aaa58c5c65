/** The records shared by the application (src/types/index.ts). Identifiers
    are the strings `crypto.randomUUID` produces; the timestamp of an article
    is an abstract clock reading. */
module Types {
  import opened Wrappers

  type Id = string

  datatype ApiKeys = ApiKeys(geminiApiKey: string, pexelsApiKey: Option<string>)

  datatype Topic = Topic(id: Id, name: string, isUserGenerated: bool)

  datatype ArticleTitle = ArticleTitle(id: Id, title: string, topicId: Id)

  datatype Article = Article(
    id: Id,
    title: string,
    content: string,
    topicId: Id,
    titleId: Id,
    imageUrl: Option<string>,
    createdAt: int)
}
