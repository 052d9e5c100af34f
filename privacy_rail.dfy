/**
 * The output rail that flags a bot message holding an email address. It reads
 * one key of the conversation context and runs the same pattern search as the
 * email-shape detector.
 */
module PrivacyRail {
  import opened Wrappers
  import opened Python
  import EmailPattern

  /** The one context key the rail reads. */
  const BotMessageKey := "bot_message"

  /**
   * `check_email(context)`. A missing context fails on `.get`; a missing
   * `bot_message` hands `None` to the search, which fails too. Neither is
   * reported as `False`.
   */
  function CheckEmail(context: Option<map<string, string>>): (r: Result<bool, Exception>)
    ensures context.None? ==> r == Err(AttributeError)
    ensures context.Some? && BotMessageKey !in context.value ==> r == Err(TypeError)
    ensures r.Ok? <==> context.Some? && BotMessageKey in context.value
    ensures r.Ok? ==> (r.value <==> EmailPattern.ContainsEmail(context.value[BotMessageKey]))
  {
    match context
    case None => Err(AttributeError)
    case Some(ctx) =>
      if BotMessageKey in ctx then Ok(EmailPattern.ContainsEmail(ctx[BotMessageKey]))
      else Err(TypeError)
  }

  /** Only `bot_message` is read: contexts that agree on it get the same answer. */
  lemma ReadsOnlyBotMessage(c1: map<string, string>, c2: map<string, string>)
    requires BotMessageKey in c1 <==> BotMessageKey in c2
    requires BotMessageKey in c1 ==> c1[BotMessageKey] == c2[BotMessageKey]
    ensures CheckEmail(Some(c1)) == CheckEmail(Some(c2))
  {
  }

  /** A message with an address, one without, and one with an `@` but no local part. */
  lemma ExampleMessages()
    ensures CheckEmail(Some(map[BotMessageKey := "contact me at a.b+tag@example.co.uk"])) == Ok(true)
    ensures CheckEmail(Some(map[BotMessageKey := "no contact info here"])) == Ok(false)
    ensures CheckEmail(Some(map[BotMessageKey := "@example.com"])) == Ok(false)
  {
    EmailPattern.ExampleTexts();
    EmailPattern.NeedsLocalPart();
  }
}
