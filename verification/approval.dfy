/** Reactions added to messages: a nominee approving the suggestion of
    their own message, and a user confirming the request to erase their
    data. */
module Approval {
  import opened Common
  import Text
  import opened Chat
  import opened Settings
  import opened Models
  import Storage
  import Reactions
  import Cleaning
  import Dm
  import Suggestion

  /** A reaction somebody added: its emoji, the id of who added it, that
      person as a server member (absent in direct messages), and the
      message it was added to. */
  datatype ReactionEvent = ReactionEvent(emoji: string, userId: nat, reactor: Option<User>, message: Message)

  const DeleteCommand := "!delete"

  const ErasedText := "All of your data has been removed. If you approve or nominate another motto in future, your user data and any future approved mottos will be captured again. "

  /** The attributes an approval writes back. */
  const ApprovalFields: seq<Attribute> := [MottoAttribute, ApprovedByAuthorAttribute]

  /** Whether an outcome leaves the chat and the store alone. */
  predicate Idle(r: Result<Dm.Outcome>) {
    r == Suggestion.Quiet([])
  }

  /** `on_raw_reaction_add`. Only the approval and the confirm-delete
      emoji are acted on, and every action concerns a message the bot has
      marked as pending. */
  function OnReaction(c: BotConfig, env: Suggestion.Env, ev: ReactionEvent): (r: Result<Dm.Outcome>)
    ensures ev.emoji != c.approvalReaction && ev.emoji != c.confirmDeleteReaction ==> Idle(r)
    ensures r.Ok? && !Idle(r) ==> HasOwnReaction(ev.message, c.reactions.pending)
  {
    if ev.emoji == c.approvalReaction then Approve(c, env, ev)
    else if ev.emoji == c.confirmDeleteReaction then ConfirmDelete(c, env, ev)
    else Suggestion.Quiet([])
  }

  // ---------------------------------------------------------------------
  // Approval.

  /** The approval branch: the bot's message must still be pending, the
      suggested message must still exist and the reaction must come from
      its author, and the suggestion must be stored and carry a trigger. */
  function Approve(c: BotConfig, env: Suggestion.Env, ev: ReactionEvent): (r: Result<Dm.Outcome>)
    ensures r.Ok? && !Idle(r) ==> HasOwnReaction(ev.message, c.reactions.pending)
    ensures r.Ok? && r.value.requests != [] ==>
      && ev.message.reference.Some? && ev.message.reference.value.Resolved?
      && var motto := ev.message.reference.value.message;
         && motto.author.id == ev.userId
         && Storage.GetMotto(env.mottos, motto.id).Ok? && Storage.GetMotto(env.mottos, motto.id).value.Some?
         && FirstTrigger(Triggers(c, env.matchers), ev.message.content).Some?
         && var ts := Triggers(c, env.matchers);
            ApprovedText(env.channels, ev.message, motto, ts[FirstTrigger(ts, ev.message.content).value]).Some?
  {
    var message := ev.message;
    if !HasOwnReaction(message, c.reactions.pending) then Suggestion.Quiet([])
    else match message.reference
      case None => Err(AttributeError)
      case Some(Unresolved) => Err(AttributeError)
      case Some(DeletedReference) => Suggestion.Quiet(Reactions.Deleted(c))
      case Some(Resolved(motto)) =>
        if motto.author.id != ev.userId then Suggestion.Quiet([])
        else
          var stored :- Storage.GetMotto(env.mottos, motto.id);
          match stored
          case None => Suggestion.Quiet([])
          case Some(m) =>
            var ts := Triggers(c, env.matchers);
            match FirstTrigger(ts, message.content)
            case None => Suggestion.Quiet([])
            case Some(k) => Accept(c, env, ev, motto, m, ts[k])
  }

  /** The text an approval stores: the cleaned excerpt when the
      nomination quoted one that occurs in the motto, the whole cleaned
      motto when it quoted nothing, and nothing when the excerpt is not in
      the motto. */
  function ApprovedText(channels: map<nat, string>, message: Message, motto: Message, t: Trigger): (r: Option<string>)
    ensures var excerpt := Cleaning.CleanTrigger(t, message.content);
      r.Some? <==> excerpt == [] || Text.Contains(motto.content, excerpt)
    ensures var excerpt := Cleaning.CleanTrigger(t, message.content);
      excerpt == [] ==> r == Some(Cleaning.CleanMessage(channels, motto.content, motto.serverEmojis))
    ensures var excerpt := Cleaning.CleanTrigger(t, message.content);
      excerpt != [] && r.Some? ==> r.value == Cleaning.CleanMessage(channels, excerpt, message.serverEmojis)
  {
    var excerpt := Cleaning.CleanTrigger(t, message.content);
    if excerpt != [] && !Text.Contains(motto.content, excerpt) then None
    else if excerpt != [] then Some(Cleaning.CleanMessage(channels, excerpt, message.serverEmojis))
    else Some(Cleaning.CleanMessage(channels, motto.content, motto.serverEmojis))
  }

  /** For plain text (no mentions, no server emoji) the approved text is
      the quoted excerpt, or the whole motto when nothing was quoted. */
  lemma PlainApprovedText(channels: map<nat, string>, message: Message, motto: Message, t: Trigger)
    requires forall i :: 0 <= i < |motto.content| ==> motto.content[i] != '<'
    requires message.serverEmojis == [] && motto.serverEmojis == []
    ensures var excerpt := Cleaning.CleanTrigger(t, message.content);
      && (excerpt == [] ==> ApprovedText(channels, message, motto, t) == Some(motto.content))
      && (excerpt != [] && Text.Contains(motto.content, excerpt) ==> ApprovedText(channels, message, motto, t) == Some(excerpt))
  {
    var excerpt := Cleaning.CleanTrigger(t, message.content);
    var r := ApprovedText(channels, message, motto, t);
    if excerpt == [] {
      Cleaning.PlainTextKept(channels, motto.content);
    } else if Text.Contains(motto.content, excerpt) {
      Text.ContainedChars(motto.content, excerpt);
      Cleaning.PlainTextKept(channels, excerpt);
    }
  }

  /** A motto whose text is already stored is deleted as a duplicate;
      otherwise the approved text is written back. */
  function Accept(c: BotConfig, env: Suggestion.Env, ev: ReactionEvent, motto: Message, m: Motto, t: Trigger): (r: Result<Dm.Outcome>)
    ensures ApprovedText(env.channels, ev.message, motto, t).None? ==> Idle(r)
    ensures r.Ok? && r.value.requests != [] ==> ApprovedText(env.channels, ev.message, motto, t).Some?
  {
    match ApprovedText(env.channels, ev.message, motto, t)
    case None => Suggestion.Quiet([])
    case Some(text) =>
      var repeat :- Storage.IsRepeat(env.mottos, Cleaning.CleanMessage(env.channels, motto.content, motto.serverEmojis), None);
      if repeat then Ok(Dm.Outcome(Reactions.Duplicate(c), Storage.DeleteRequests(Storage.MottoTable, [Show(m.primaryKey)])))
      else SaveApproval(c, env, ev, motto, Approved(m, text))
  }

  /** The stored suggestion with its text and the author's approval. */
  function Approved(m: Motto, text: string): Motto {
    m.(motto := Some(text), approvedByAuthor := Some(true))
  }

  /** The approved motto is saved, the success reactions placed, and both
      members found or created and their names brought up to date. */
  function SaveApproval(c: BotConfig, env: Suggestion.Env, ev: ReactionEvent, motto: Message, m: Motto): (r: Result<Dm.Outcome>)
    ensures r.Ok? ==> ev.reactor.Some? && Storage.SaveMotto(m, ApprovalFields).Ok?
    ensures r.Ok? ==> r.value.effects == Reactions.Stored(c, motto)
    ensures r.Ok? ==> r.value.requests != [] && r.value.requests[0] == Storage.SaveMotto(m, ApprovalFields).value
  {
    var save :- Storage.SaveMotto(m, ApprovalFields);
    var reactor :- if ev.reactor.Some? then Ok(ev.reactor.value) else Err(AttributeError);
    var (nominee, addedNominee) :- Storage.GetOrAddMember(env.members, reactor, c.id, env.nomineeId);
    var (nominator, addedNominator) :- Storage.GetOrAddMember(env.members, ev.message.author, c.id, env.nominatorId);
    var nomineeName :- Storage.UpdateName(nominee, reactor);
    var nominatorName :- Storage.UpdateName(nominator, ev.message.author);
    Ok(Dm.Outcome(Reactions.Stored(c, motto),
      [save] + addedNominee + addedNominator + Suggestion.Written(nomineeName) + Suggestion.Written(nominatorName)))
  }

  // ---------------------------------------------------------------------
  // Confirming erasure.

  /** The confirm-delete branch: the reaction must be on the bot's own
      pending reply, in a direct message, to a `!delete` request. */
  function ConfirmDelete(c: BotConfig, env: Suggestion.Env, ev: ReactionEvent): (r: Result<Dm.Outcome>)
    ensures r.Ok? && !Idle(r) ==> HasOwnReaction(ev.message, c.reactions.pending)
  {
    var message := ev.message;
    if !SameUser(message.author, env.bot) || !message.channel.DirectChannel? then Suggestion.Quiet([])
    else match message.reference
      case Some(DeletedReference) => Err(AttributeError)
      case Some(Resolved(request)) =>
        if Text.Lower(Text.Strip(request.content)) != DeleteCommand then Suggestion.Quiet([])
        else if !HasOwnReaction(message, c.reactions.pending) then Suggestion.Quiet([])
        else
          var deletions :- Storage.RemoveAllData(env.members, ev.userId);
          Ok(Dm.Outcome(Erased(c), deletions))
      case _ => Suggestion.Quiet([])
  }

  /** The pending marker gives way to the confirmation marker, and the
      user is told. */
  function Erased(c: BotConfig): seq<Effect> {
    [RemoveOwnReaction(c.reactions.pending), AddReaction(c.reactions.deleteConfirmed), Send(ErasedText)]
  }

  // ---------------------------------------------------------------------
  // Properties.

  /** Only the author of the suggested message can change the store by
      approving it. */
  lemma OnlyAuthorApproves(c: BotConfig, env: Suggestion.Env, ev: ReactionEvent)
    requires ev.emoji == c.approvalReaction
    requires OnReaction(c, env, ev).Ok? && OnReaction(c, env, ev).value.requests != []
    ensures ev.message.reference.Some? && ev.message.reference.value.Resolved?
    ensures ev.message.reference.value.message.author.id == ev.userId
    ensures HasOwnReaction(ev.message, c.reactions.pending)
  {
  }

  /** An approval writes only for a nomination the store holds, whose
      message starts with a trigger, and whose excerpt (if any) occurs in
      the suggested message. */
  lemma ApprovalNeedsStoredNomination(c: BotConfig, env: Suggestion.Env, ev: ReactionEvent)
    requires ev.emoji == c.approvalReaction
    requires OnReaction(c, env, ev).Ok? && OnReaction(c, env, ev).value.requests != []
    ensures ev.message.reference.Some? && ev.message.reference.value.Resolved?
    ensures var motto := ev.message.reference.value.message;
      Storage.GetMotto(env.mottos, motto.id).Ok? && Storage.GetMotto(env.mottos, motto.id).value.Some?
    ensures FirstTrigger(Triggers(c, env.matchers), ev.message.content).Some?
    ensures var motto := ev.message.reference.value.message;
      var ts := Triggers(c, env.matchers);
      var excerpt := Cleaning.CleanTrigger(ts[FirstTrigger(ts, ev.message.content).value], ev.message.content);
      excerpt == [] || Text.Contains(motto.content, excerpt)
  {
  }

  /** Erasure happens only for a reaction on the bot's own pending reply
      to a `!delete` request in a direct message. */
  lemma ErasureNeedsConfirmation(c: BotConfig, env: Suggestion.Env, ev: ReactionEvent)
    requires ev.emoji == c.confirmDeleteReaction && ev.emoji != c.approvalReaction
    requires OnReaction(c, env, ev).Ok? && OnReaction(c, env, ev).value.requests != []
    ensures SameUser(ev.message.author, env.bot) && ev.message.channel.DirectChannel?
    ensures ev.message.reference.Some? && ev.message.reference.value.Resolved?
    ensures Text.Lower(Text.Strip(ev.message.reference.value.message.content)) == DeleteCommand
    ensures HasOwnReaction(ev.message, c.reactions.pending)
  {
  }

  /** A confirmed erasure reports and marks the erasure exactly when the
      store's deletions can be formed; a failure leaves nothing done. */
  lemma ConfirmedErasure(c: BotConfig, env: Suggestion.Env, ev: ReactionEvent, request: Message)
    requires ev.emoji == c.confirmDeleteReaction && ev.emoji != c.approvalReaction
    requires SameUser(ev.message.author, env.bot) && ev.message.channel.DirectChannel?
    requires ev.message.reference == Some(Resolved(request))
    requires Text.Lower(Text.Strip(request.content)) == DeleteCommand
    requires HasOwnReaction(ev.message, c.reactions.pending)
    ensures OnReaction(c, env, ev) == match Storage.RemoveAllData(env.members, ev.userId)
      case Ok(deletions) => Ok(Dm.Outcome(Erased(c), deletions))
      case Err(e) => Err(e)
  {
    assert OnReaction(c, env, ev) == ConfirmDelete(c, env, ev);
  }

  /** A confirmed erasure deletes the user's mottos and then the user's
      own record from the Member table. */
  lemma ErasureDeletesMember(c: BotConfig, env: Suggestion.Env, ev: ReactionEvent, request: Message)
    requires ev.emoji == c.confirmDeleteReaction && ev.emoji != c.approvalReaction
    requires SameUser(ev.message.author, env.bot) && ev.message.channel.DirectChannel?
    requires ev.message.reference == Some(Resolved(request))
    requires Text.Lower(Text.Strip(request.content)) == DeleteCommand
    requires HasOwnReaction(ev.message, c.reactions.pending)
    requires ev.userId != 0 && Storage.Listed(env.members)
    requires Storage.FindMember(env.members, ev.userId).Some?
    requires MemberFromAirtable(Storage.FindMember(env.members, ev.userId).value).Ok?
    ensures var rec := Storage.FindMember(env.members, ev.userId).value;
      var member := MemberFromAirtable(rec).value;
      OnReaction(c, env, ev) == Ok(Dm.Outcome(Erased(c),
        Storage.DeleteRequests(Storage.MottoTable, member.mottos) + [Storage.DeleteOne(Storage.MemberTable, rec.id.value)]))
  {
    ConfirmedErasure(c, env, ev, request);
    Storage.RemoveAllDataDeletesMember(env.members, ev.userId);
  }

  /** After a confirmed erasure the bot's markers on its reply show the
      confirmation and no longer the pending state. */
  lemma ErasedMarkers(c: BotConfig, mine: set<string>, pick: seq<string> -> nat)
    ensures var after := OwnReactions(mine, Erased(c), pick);
      c.reactions.deleteConfirmed in after
      && (c.reactions.pending != c.reactions.deleteConfirmed ==> c.reactions.pending !in after)
  {
    OwnReactionsSteps(mine, RemoveOwnReaction(c.reactions.pending), AddReaction(c.reactions.deleteConfirmed), Send(ErasedText), pick);
  }

  /** Approving writes exactly the text and the author's approval back to
      the suggestion's own record. */
  lemma ApprovalUpdate(m: Motto, text: string)
    requires Present(m.primaryKey)
    ensures Storage.SaveMotto(Approved(m, text), ApprovalFields)
      == Ok(Storage.Update(Storage.MottoTable, m.primaryKey.value, map[MottoColumn := Str(text), ApprovedByAuthorColumn := Bool(true)]))
  {
    var a := Approved(m, text);
    var fields := Storage.SaveMotto(a, ApprovalFields).value.fields;
    var expected := map[MottoColumn := Str(text), ApprovedByAuthorColumn := Bool(true)];
    forall column
      ensures column in fields <==> column in expected
      ensures column in fields ==> fields[column] == expected[column]
    {
      Storage.SavedOrNot(a, ApprovalFields, column);
      ApprovalColumn(column);
    }
    assert fields == expected;
  }

  /** The columns an approval writes. */
  lemma ApprovalColumn(column: Column)
    ensures column in MottoColumns && AttributeOf(column) in Storage.SaveFields(ApprovalFields)
      <==> column == MottoColumn || column == ApprovedByAuthorColumn
  {
    assert MottoColumns[0] == MottoColumn && MottoColumns[5] == ApprovedByAuthorColumn;
  }

  /** An approved suggestion is saved to the record the suggestion was
      stored under, before any member record is touched. */
  lemma ApprovalSavedFirst(c: BotConfig, env: Suggestion.Env, ev: ReactionEvent, motto: Message, m: Motto, text: string)
    requires Present(m.primaryKey)
    requires SaveApproval(c, env, ev, motto, Approved(m, text)).Ok?
    ensures var out := SaveApproval(c, env, ev, motto, Approved(m, text)).value;
      && out.effects == Reactions.Stored(c, motto)
      && out.requests != []
      && out.requests[0] == Storage.Update(Storage.MottoTable, m.primaryKey.value,
           map[MottoColumn := Str(text), ApprovedByAuthorColumn := Bool(true)])
  {
    SavedBeforeMembers(c, env, ev, motto, Approved(m, text));
    ApprovalUpdate(m, text);
  }

  lemma SavedBeforeMembers(c: BotConfig, env: Suggestion.Env, ev: ReactionEvent, motto: Message, m: Motto)
    requires SaveApproval(c, env, ev, motto, m).Ok?
    ensures var out := SaveApproval(c, env, ev, motto, m).value;
      && out.effects == Reactions.Stored(c, motto)
      && Storage.SaveMotto(m, ApprovalFields).Ok?
      && out.requests != [] && out.requests[0] == Storage.SaveMotto(m, ApprovalFields).value
  {
  }

  /** A suggestion whose text is already stored is withdrawn: its record
      is deleted and the pending marker gives way to the repeat marker. */
  lemma DuplicateWithdrawn(c: BotConfig, env: Suggestion.Env, ev: ReactionEvent, motto: Message, m: Motto, t: Trigger)
    requires ApprovedText(env.channels, ev.message, motto, t).Some?
    requires Storage.IsRepeat(env.mottos, Cleaning.CleanMessage(env.channels, motto.content, motto.serverEmojis), None) == Ok(true)
    ensures Accept(c, env, ev, motto, m, t)
      == Ok(Dm.Outcome(Reactions.Duplicate(c), [Storage.DeleteOne(Storage.MottoTable, Show(m.primaryKey))]))
  {
    Storage.DeleteSingle(Storage.MottoTable, Show(m.primaryKey));
  }

  /** A nomination that quoted an excerpt of the motto in quotation marks
      stores the cleaned excerpt on approval. */
  lemma QuotedApproval(channels: map<nat, string>, message: Message, motto: Message, t: Trigger, open: char, e: string, close: char)
    requires Text.Strip(t.removeAll(message.content)) == [open] + e + [close]
    requires open in Cleaning.QuoteMarks && close in Cleaning.QuoteMarks
    requires e != [] && e[0] !in Cleaning.QuoteMarks && e[|e| - 1] !in Cleaning.QuoteMarks
    requires Text.Contains(motto.content, e)
    ensures ApprovedText(channels, message, motto, t) == Some(Cleaning.CleanMessage(channels, e, message.serverEmojis))
  {
    Cleaning.QuotedExcerpt(t, message.content, open, e, close);
  }

  /** Without the pending marker neither emoji does anything. */
  lemma NothingWithoutPending(c: BotConfig, env: Suggestion.Env, ev: ReactionEvent)
    requires !HasOwnReaction(ev.message, c.reactions.pending)
    ensures OnReaction(c, env, ev).Err? ==> ev.emoji != c.approvalReaction
    ensures OnReaction(c, env, ev).Ok? ==> Idle(OnReaction(c, env, ev))
  {
  }
}
