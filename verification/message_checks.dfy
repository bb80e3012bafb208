/** The guard that keeps the bot from nominating its own messages. */
module MessageChecks {
  import opened Common
  import opened Chat

  /** The bot wrote the message, or the message replies to one the bot
      wrote and the client could fetch. */
  predicate BotInvolved(m: Message, bot: User) {
    || SameUser(m.author, bot)
    || (m.reference.Some? && m.reference.value.Resolved? && SameUser(m.reference.value.message.author, bot))
  }

  /** `is_botto`. A reply whose referenced message has been deleted has no
      author to compare, which raises. */
  function IsBotto(m: Message, bot: User): (r: Result<bool>)
    ensures SameUser(m.author, bot) ==> r == Ok(true)
    ensures !SameUser(m.author, bot) && m.reference.None? ==> r == Ok(false)
    ensures !SameUser(m.author, bot) && m.reference == Some(Unresolved) ==> r == Ok(false)
    ensures r.Err? <==> !SameUser(m.author, bot) && m.reference == Some(DeletedReference)
    ensures r.Ok? ==> (r.value <==> BotInvolved(m, bot))
  {
    if SameUser(m.author, bot) then Ok(true)
    else match m.reference
      case None => Ok(false)
      case Some(Unresolved) => Ok(false)
      case Some(DeletedReference) => Err(AttributeError)
      case Some(Resolved(original)) => Ok(SameUser(original.author, bot))
  }

  /** Whether a message arrived through a direct-message channel. */
  predicate IsDm(m: Message) {
    m.channel.DirectChannel?
  }
}
