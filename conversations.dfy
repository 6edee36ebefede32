/** The records the chat application keeps: one exchange per submission, one entry per chat. */
module Conversations {

  /** `{"user": ..., "bot": ...}`: a user message and the reply shown for it. */
  datatype Exchange = Exchange(user: string, bot: string)

  /** `{"title": ..., "timestamp": ..., "conversation": [...]}`: one saved chat. */
  datatype Entry = Entry(title: string, timestamp: string, conversation: seq<Exchange>)
}
