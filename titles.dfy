/** `generate_chat_title`: the label a saved chat gets when the caller supplies none. */
module Titles {
  import opened Conversations
  import Clock

  /** The slice `[:30]` applied to the first sentence. */
  const TitleLimit: nat := 30

  const Ellipsis := "..."

  /** `s.split('.')[0]`: everything before the first `.`, or all of `s` when it has none. */
  function BeforeFirstDot(s: string): (r: string)
    ensures r <= s
    ensures '.' !in r
    ensures r == s || s[|r|] == '.'
  {
    if s == [] || s[0] == '.' then [] else [s[0]] + BeforeFirstDot(s[1..])
  }

  /** `s[:n]`: the first `n` characters, or all of `s` when it is shorter. */
  function Truncate(s: string, n: nat): (r: string)
    ensures r <= s
    ensures |r| == if |s| <= n then |s| else n
  {
    if |s| <= n then s else s[..n]
  }

  /**
   * The first user message cut at its first `.`, kept to at most 30 characters, followed by
   * `...`; for an empty conversation `New Chat ` and today's date.
   */
  function GenerateChatTitle(conversation: seq<Exchange>, today: Clock.Instant): (title: string)
    ensures conversation == [] ==> title == "New Chat " + Clock.FormatDate(today)
    ensures conversation != [] ==>
      && 3 <= |title| <= TitleLimit + 3
      && title[|title| - 3..] == Ellipsis
      && IsTitleBody(conversation[0].user, title[..|title| - 3])
  {
    if conversation != [] then
      var body := Truncate(BeforeFirstDot(conversation[0].user), TitleLimit);
      assert (body + Ellipsis)[..|body|] == body;
      body + Ellipsis
    else
      "New Chat " + Clock.FormatDate(today)
  }

  /**
   * `body` is a prefix of `message` without a `.` that stops only at the 30-character limit,
   * at the end of the message, or at its first `.`.
   */
  predicate IsTitleBody(message: string, body: string) {
    && body <= message
    && |body| <= TitleLimit
    && '.' !in body
    && (|body| == TitleLimit || body == message || message[|body|] == '.')
  }

  /** The description `IsTitleBody` admits exactly one body: the one the title is built from. */
  lemma TitleBodyUnique(message: string, body: string)
    requires IsTitleBody(message, body)
    ensures body == Truncate(BeforeFirstDot(message), TitleLimit)
  {
  }

  /** The worked example: "Hello. How are you?" gives "Hello...". */
  lemma HelloTitle(reply: string, today: Clock.Instant)
    ensures GenerateChatTitle([Exchange("Hello. How are you?", reply)], today) == "Hello..."
  {
    var message := "Hello. How are you?";
    assert message[..5] == "Hello" && message[5] == '.';
    assert IsTitleBody(message, "Hello");
    TitleBodyUnique(message, "Hello");
  }
}
