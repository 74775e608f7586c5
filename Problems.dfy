/**
 The problem record of the problem-tracking service. The backend receives it in
 the GraphQL question list and forwards the chosen ones unchanged; the frontend
 keeps them as its contest.
 */
module Problems {

  import opened Wrappers

  /** The service's three difficulty labels ('Easy', 'Medium', 'Hard'). */
  datatype Difficulty = Easy | Medium | Hard

  datatype TopicTag = TopicTag(name: string, slug: string)

  /**
   One question of the problem set. `status` is the solve status the service
   reports for the session cookie's owner: "ac" when solved, null (None) when
   not or when no cookie was sent.
   */
  datatype Question = Question(
    title: string,
    titleSlug: string,
    difficulty: Difficulty,
    isPaidOnly: bool,
    topicTags: seq<TopicTag>,
    status: Option<string>)
}
