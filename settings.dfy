/** Configuration constants of the news application, at their default values
    (news_app/conf.py). Every cost and bound used by the model is read from here. */
module Settings {

  /** Longest accepted news item title. */
  const MAX_TITLE_LENGTH: nat := 100
  /** Longest accepted url. */
  const MAX_URL_LENGTH: nat := 125
  /** Longest accepted e-mail address. */
  const MAX_EMAIL_LENGTH: nat := 100
  /** Longest accepted user name and password. */
  const MAX_USERNAME_LENGTH: nat := 30
  const MAX_PASSWORD_LENGTH: nat := 30

  /** A rankable can be edited or deleted by its poster for this many minutes. */
  const COMMENT_EDITABLE_MINS: nat := 60

  /** Comment points it costs to respond to a link item / to an "Ask SN" (text) item. */
  const COST_RESPOND_NEWS_ITEM: nat := 2
  const COST_RESPOND_ASK_SN: nat := 0

  /** Comment points it costs to vote on a comment whose root item is a link / a text item. */
  const COST_VOTE_NORMAL_COMMENT: nat := 1
  const COST_VOTE_ASK_SN_COMMENT: nat := 0

  /** Comment points it costs to vote on a link item / on a text item. */
  const COST_VOTE_NEWS_ITEM: nat := 0
  const COST_VOTE_ASK_SN: nat := 0

  /** Number of news items shown per front page. */
  const ITEMS_FRONTPAGE: nat := 15
}
