/** Messages in server channels: the channel filter, the tag handler
    (`!random` by mention), the reactions to chatter, and the classifier
    that turns a reply carrying a trigger into a pending motto. */
module Suggestion {
  import opened Common
  import Text
  import opened Chat
  import opened Settings
  import opened Models
  import Storage
  import Reactions
  import MessageChecks
  import RateLimiter
  import Cleaning
  import Food
  import Dm

  /** Everything the handler consults besides the configuration and the
      message: the bot's own user, the compiled patterns, the food table,
      the two tables, the ids the store gives the nominee's and the
      nominator's member records and the new motto record when it creates
      them, the channels the
      client can see (by id), the random-request limiter, the clock, the
      random pick and the pattern compiler. */
  datatype Env = Env(
    bot: User,
    matchers: Matchers,
    food: seq<Food.Category>,
    mottos: seq<Record>,
    members: seq<Record>,
    nomineeId: string,
    nominatorId: string,
    mottoId: string,
    channels: map<nat, string>,
    limiter: RateLimiter.Limiter,
    now: int,
    pick: nat,
    compile: string -> Option<string -> bool>)

  /** The outcome of one message, and the limiter afterwards: a granted
      random request is recorded even when what follows fails. */
  datatype Turn = Turn(result: Result<Dm.Outcome>, limiter: RateLimiter.Limiter)

  function Quiet(effects: seq<Effect>): (r: Result<Dm.Outcome>)
    ensures r.Ok? <==> Chat.Choosable(effects)
    ensures r.Ok? ==> r.value.effects == effects && r.value.requests == []
    ensures r.Err? ==> r.exception == IndexError
  {
    if Chat.Choosable(effects) then Ok(Dm.Outcome(effects, [])) else Err(IndexError)
  }

  // ---------------------------------------------------------------------
  // The channel filter of `on_message`.

  /** A non-empty include list admits only its channels; the exclude list
      then refuses its own. */
  predicate Watched(c: BotConfig, channelName: string) {
    if c.includeChannels != [] && channelName !in c.includeChannels then false
    else channelName !in c.excludeChannels
  }

  /** A channel is watched exactly when the include list is empty or names
      it, and the exclude list does not name it. */
  lemma WatchedChannels(c: BotConfig, channelName: string)
    ensures Watched(c, channelName) <==>
      (c.includeChannels == [] || channelName in c.includeChannels) && channelName !in c.excludeChannels
  {
  }

  // ---------------------------------------------------------------------
  // The snail.

  /** The snail phrases as the source spells them: the first holds the
      snail emoji's UTF-8 bytes read as Windows-1252. */
  const SnailPhrasesAsWritten: set<string> := {"i am \U{00F0}\U{0178}\U{0152}", "i am snail"}

  /** The snail phrases evidently meant. */
  const SnailPhrases: set<string> := {"i am \U{1F40C}", "i am snail"}

  predicate SaysSnailWith(content: string, phrases: set<string>) {
    Text.Lower(Text.Strip(content)) in phrases
  }

  /** As written, the emoji phrase can never match: lower-casing never
      produces the capital it holds. Only "i am snail" gets the snail. */
  lemma SnailEmojiNeverMatchesAsWritten(content: string)
    ensures SaysSnailWith(content, SnailPhrasesAsWritten) <==> Text.Lower(Text.Strip(content)) == "i am snail"
  {
    var phrase := "i am \U{00F0}\U{0178}\U{0152}";
    assert phrase[6] == '\U{0178}';
    Text.LowerLacksCapital(Text.Strip(content), phrase, 6);
  }

  /** With the evidently meant phrase, the snail emoji gets the snail,
      whatever its case... */
  lemma SnailEmojiMatches()
    ensures SaysSnailWith("I am \U{1F40C}", SnailPhrases)
  {
    var s := "I am \U{1F40C}";
    assert Text.Strip(s) == s by {
      assert Text.TrimLeftBy(s, Text.IsSpace) == s by {
        assert !Text.IsSpace(s[0]);
      }
      assert Text.TrimRightBy(s, Text.IsSpace) == s by {
        assert !Text.IsSpace(s[|s| - 1]);
      }
    }
    SnailCase();
    assert "i am \U{1F40C}" in SnailPhrases;
  }

  /** ...and whatever whitespace surrounds it. */
  lemma SnailIgnoresPadding(p: string, content: string, q: string, phrases: set<string>)
    requires forall i :: 0 <= i < |p| ==> Text.IsSpace(p[i])
    requires forall i :: 0 <= i < |q| ==> Text.IsSpace(q[i])
    ensures SaysSnailWith(p + content + q, phrases) <==> SaysSnailWith(content, phrases)
  {
    Text.StripPadded(p, content, q, Text.IsSpace);
  }

  lemma SnailCase()
    ensures Text.Lower("I am \U{1F40C}") == "i am \U{1F40C}"
  {
    var l := Text.Lower("I am \U{1F40C}");
    assert l[0] == 'i' && l[1] == ' ' && l[2] == 'a' && l[3] == 'm' && l[4] == ' ' && l[5] == '\U{1F40C}';
  }

  // ---------------------------------------------------------------------
  // Chatter: a message that carries no trigger.

  predicate OnlyReactions(es: seq<Effect>) {
    forall i :: 0 <= i < |es| ==> es[i].AddReaction? || es[i].AddRandomReaction?
  }

  function When(cond: bool, es: seq<Effect>): seq<Effect> {
    if cond then es else []
  }

  /** Every reaction whose pattern matches, in the order they are tried;
      food is answered from the food table, and an emoji that is no food
      gets the dizzy face. */
  function Chatter(c: BotConfig, x: Matchers, food: seq<Food.Category>, content: string): (es: seq<Effect>)
    ensures OnlyReactions(es)
  {
    AffectionOnlyReacts(c, x, content);
    BanterOnlyReacts(c, x, food, content);
    OnlyReactionsAppend(Affection(c, x, content), Banter(c, x, food, content));
    Affection(c, x, content) + Banter(c, x, food, content)
  }

  /** The first four patterns tried: poke, sorry, love and hug. */
  function Affection(c: BotConfig, x: Matchers, content: string): seq<Effect> {
    When(x.pokes(content), Reactions.Poke(c))
      + When(x.sorry(content), Reactions.Love(c))
      + When(x.love(content), Reactions.Love(c))
      + When(x.hug(content), Reactions.Hug(c))
  }

  /** The rest, in order: band, snail, cow and food. */
  function Banter(c: BotConfig, x: Matchers, food: seq<Food.Category>, content: string): (es: seq<Effect>)
    ensures SaysSnailWith(content, SnailPhrases) ==> AddReaction(Reactions.Snail) in es
    ensures !SaysSnailWith(content, SnailPhrases) && !x.band(content) && !x.cow(content) ==>
      es == FoodPart(c, x, food, content)
  {
    When(x.band(content), Reactions.FavoriteBand(c))
      + When(SaysSnailWith(content, SnailPhrases), Reactions.SnailReaction())
      + When(x.cow(content), Reactions.Cow(c))
      + FoodPart(c, x, food, content)
  }

  function FoodPart(c: BotConfig, x: Matchers, food: seq<Food.Category>, content: string): seq<Effect> {
    match x.food(content)
    case Some(item) => Reactions.FoodReaction(c, food, item)
    case None => When(x.notFood(content), Reactions.UnrecognisedFood())
  }

  lemma OnlyReactionsAppend(a: seq<Effect>, b: seq<Effect>)
    requires OnlyReactions(a) && OnlyReactions(b)
    ensures OnlyReactions(a + b)
  {
    assert forall i :: |a| <= i < |a + b| ==> (a + b)[i] == b[i - |a|];
  }

  lemma AffectionOnlyReacts(c: BotConfig, x: Matchers, content: string)
    ensures OnlyReactions(Affection(c, x, content))
  {
    var p1 := When(x.pokes(content), Reactions.Poke(c));
    var p2 := When(x.sorry(content), Reactions.Love(c));
    var p3 := When(x.love(content), Reactions.Love(c));
    var p4 := When(x.hug(content), Reactions.Hug(c));
    OnlyReactionsAppend(p1, p2);
    OnlyReactionsAppend(p1 + p2, p3);
    OnlyReactionsAppend(p1 + p2 + p3, p4);
  }

  lemma BanterOnlyReacts(c: BotConfig, x: Matchers, food: seq<Food.Category>, content: string)
    ensures OnlyReactions(Banter(c, x, food, content))
  {
    var p5 := When(x.band(content), Reactions.FavoriteBand(c));
    var p6 := When(SaysSnailWith(content, SnailPhrases), Reactions.SnailReaction());
    var p7 := When(x.cow(content), Reactions.Cow(c));
    var p8 := FoodPart(c, x, food, content);
    assert OnlyReactions(p8) by {
      if x.food(content).Some? {
        var item := x.food(content).value;
        match Food.LookupOf(food, item)
        case None =>
        case Some(responses) => FoodEffectsOnlyReact(c, responses, item);
      }
    }
    assert OnlyReactions(p5);
    OnlyReactionsAppend(p5, p6);
    OnlyReactionsAppend(p5 + p6, p7);
    OnlyReactionsAppend(p5 + p6 + p7, p8);
  }

  lemma {:induction false} FoodEffectsOnlyReact(c: BotConfig, responses: seq<Food.FoodResponse>, item: string)
    ensures OnlyReactions(Reactions.FoodEffects(c, responses, item))
    decreases |responses|
  {
    if responses != [] {
      FoodEffectsOnlyReact(c, responses[1..], item);
    }
  }

  // ---------------------------------------------------------------------
  // Tags.

  /** `process_tag`: a `!random` request, when the limiter grants it, is
      answered with a random motto and its nominee (or a shrug when none
      qualifies); a refused one gets the raised hand. Anything else tagged
      gets nothing. */
  function ProcessTag(c: BotConfig, env: Env, message: Message, tags: seq<string>): (t: Turn)
    ensures t.limiter == env.limiter || t.limiter.last == Some(env.now)
    ensures t.result.Ok? ==> t.result.value.requests == []
  {
    if tags == [] then Turn(Quiet(Reactions.Wave(c)), env.limiter)
    else
      var partial := env.matchers.randomTag(Text.Strip(tags[0]));
      if partial == [] then Turn(Quiet([]), env.limiter)
      else
        var (granted, limiter) := RateLimiter.Request(env.limiter, message.author.id, env.now,
                                                      c.randomIntervalMinutes, c.randomIntervalMinutesPerUser);
        if !granted then Turn(Quiet(Reactions.RateLimited()), limiter)
        else Turn(RandomAnswer(env, partial[0]), limiter)
  }

  /** The random motto for a search, as a reply. */
  function RandomAnswer(env: Env, search: string): (r: Result<Dm.Outcome>)
    ensures r.Ok? ==> r.value.requests == []
  {
    var motto :- Storage.RandomMotto(env.mottos, env.members, Some(search), env.compile(search), env.pick);
    if motto.None? then Quiet(Reactions.Shrug())
    else
      match Dm.RandomReply(motto.value)
      case Ok(text) => Ok(Dm.Outcome([Reply(text)], []))
      case Err(e) => Err(e)
  }

  // ---------------------------------------------------------------------
  // Suggestions.

  /** `process_suggestion`. A tagged message that replies to nothing goes to
      the tag handler; otherwise a message without a trigger is chatter,
      and one with a trigger is a nomination. */
  function ProcessSuggestion(c: BotConfig, env: Env, message: Message): (t: Turn)
    ensures message.reference.Some? || env.matchers.tag(message.content) == [] ==> t.limiter == env.limiter
    ensures t.result.Ok? && t.result.value.requests != [] ==>
      message.reference.Some? && FirstTrigger(Triggers(c, env.matchers), message.content).Some?
  {
    var tags := env.matchers.tag(message.content);
    if tags != [] && message.reference.None? then ProcessTag(c, env, message, tags)
    else Turn(Classify(c, env, message), env.limiter)
  }

  /** The trigger handling of `process_suggestion`. Only a nomination can
      write: a message with a trigger, not from the bot, replying to a
      message that could be fetched. */
  function Classify(c: BotConfig, env: Env, message: Message): (r: Result<Dm.Outcome>)
    ensures r.Ok? && r.value.requests != [] ==>
      && FirstTrigger(Triggers(c, env.matchers), message.content).Some?
      && MessageChecks.IsBotto(message, env.bot) == Ok(false)
      && message.reference.Some? && message.reference.value.Resolved?
    ensures r.Ok? && r.value.requests != [] ==>
      var ts := Triggers(c, env.matchers);
      r == Nominate(c, env, message, ts[FirstTrigger(ts, message.content).value], message.reference.value.message)
  {
    var ts := Triggers(c, env.matchers);
    match FirstTrigger(ts, message.content)
    case None => Quiet(Chatter(c, env.matchers, env.food, message.content))
    case Some(k) =>
      var bot :- MessageChecks.IsBotto(message, env.bot);
      if bot then Quiet(Reactions.SkynetPrevention(c))
      else match message.reference
        case None => Quiet(Reactions.NotReply(c))
        case Some(Resolved(motto)) => Nominate(c, env, message, ts[k], motto)
        case Some(_) => Err(AttributeError)
  }

  /** A reply with a trigger: the motto must satisfy the rules, come from
      somebody else, hold the quoted excerpt (if any), and not be stored
      already; then it is saved as pending. */
  function Nominate(c: BotConfig, env: Env, message: Message, t: Trigger, motto: Message): (r: Result<Dm.Outcome>)
    ensures r.Ok? && r.value.requests != [] ==>
      && Cleaning.ValidMotto(env.matchers, motto.content)
      && !SameUser(motto.author, message.author)
      && var excerpt := Cleaning.CleanTrigger(t, message.content);
         excerpt == [] || Text.Contains(motto.content, excerpt)
    ensures r.Ok? && r.value.requests != [] ==>
      && Storage.IsRepeat(env.mottos, Cleaning.CleanMessage(env.channels, motto.content, motto.serverEmojis), Some(motto.id)) == Ok(false)
      && r.value.effects == Reactions.Pending(c)
  {
    if !Cleaning.ValidMotto(env.matchers, motto.content) then Quiet(Reactions.Invalid(c))
    else if SameUser(motto.author, message.author) then Quiet(Reactions.Fishing(c))
    else
      var excerpt := Cleaning.CleanTrigger(t, message.content);
      if excerpt != [] && !Text.Contains(motto.content, excerpt) then Quiet(Reactions.NotReply(c))
      else StoreUnlessRepeat(c, env, message, motto)
  }

  /** A motto already stored, by text or by message id, is a duplicate;
      any other is stored. */
  function StoreUnlessRepeat(c: BotConfig, env: Env, message: Message, motto: Message): (r: Result<Dm.Outcome>)
    ensures r.Ok? && r.value.requests != [] ==>
      && Storage.IsRepeat(env.mottos, Cleaning.CleanMessage(env.channels, motto.content, motto.serverEmojis), Some(motto.id)) == Ok(false)
      && r.value.effects == Reactions.Pending(c)
    ensures Storage.IsRepeat(env.mottos, Cleaning.CleanMessage(env.channels, motto.content, motto.serverEmojis), Some(motto.id)) == Ok(true) ==>
      r.Ok? && r.value.requests == []
  {
    var text := Cleaning.CleanMessage(env.channels, motto.content, motto.serverEmojis);
    var repeat :- Storage.IsRepeat(env.mottos, text, Some(motto.id));
    if repeat then
      FixedReactionsQuiet(c);
      Quiet(Reactions.Duplicate(c))
    else Store(c, env, message, motto)
  }

  /** The record of a new nomination: no text yet, the motto message's id
      and time, both members, and approval unless a human must moderate. */
  function NewMotto(c: BotConfig, motto: Message, nominee: Member, nominator: Member): Motto {
    Motto(None, Some(""), Some(Text.NatToString(motto.id)), Some(motto.createdAt),
          Linked(nominee), Linked(nominator), None, Some(!c.humanModerationRequired), c.id)
  }

  function Written(r: Option<Storage.Request>): seq<Storage.Request> {
    if r.Some? then [r.value] else []
  }

  /** Both members are found or created, the motto inserted, the pending
      marker added, and both members' names brought up to date. */
  function Store(c: BotConfig, env: Env, message: Message, motto: Message): (r: Result<Dm.Outcome>)
    ensures r.Ok? ==> r.value.effects == Reactions.Pending(c) && r.value.requests != []
  {
    var (nominee, addedNominee) :- Storage.GetOrAddMember(env.members, motto.author, c.id, env.nomineeId);
    var (nominator, addedNominator) :- Storage.GetOrAddMember(env.members, message.author, c.id, env.nominatorId);
    var save :- Storage.SaveMotto(NewMotto(c, motto, nominee, nominator), []);
    var nomineeName :- Storage.UpdateName(nominee, motto.author);
    var nominatorName :- Storage.UpdateName(nominator, message.author);
    Ok(Dm.Outcome(Reactions.Pending(c), addedNominee + addedNominator + [save] + Written(nomineeName) + Written(nominatorName)))
  }

  // ---------------------------------------------------------------------
  // Properties of the classifier.

  /** The fixed refusals pick nothing at random, so they never fail. */
  lemma FixedReactionsQuiet(c: BotConfig)
    ensures Quiet(Reactions.SkynetPrevention(c)).Ok? && Quiet(Reactions.NotReply(c)).Ok?
    ensures Quiet(Reactions.Fishing(c)).Ok? && Quiet(Reactions.Invalid(c)).Ok?
    ensures Quiet(Reactions.Duplicate(c)).Ok? && Quiet(Reactions.Deleted(c)).Ok?
    ensures Quiet([]).Ok?
  {
    NoRandomChoosable(Reactions.SkynetPrevention(c));
    NoRandomChoosable(Reactions.NotReply(c));
    NoRandomChoosable(Reactions.Fishing(c));
    NoRandomChoosable(Reactions.Invalid(c));
    NoRandomChoosable(Reactions.Duplicate(c));
    NoRandomChoosable(Reactions.Deleted(c));
  }

  lemma NoRandomChoosable(es: seq<Effect>)
    requires forall i :: 0 <= i < |es| ==> !es[i].AddRandomReaction?
    ensures Chat.Choosable(es)
  {
  }

  /** Whether an outcome writes a motto record. */
  predicate SavesMotto(out: Dm.Outcome) {
    exists i :: 0 <= i < |out.requests| && out.requests[i].table == Storage.MottoTable
  }

  /** A message without a trigger only gets reactions and changes nothing
      in the store. */
  lemma ChatterNeverStores(c: BotConfig, env: Env, message: Message)
    requires FirstTrigger(Triggers(c, env.matchers), message.content).None?
    ensures Classify(c, env, message).Ok? <==> Chat.Choosable(Chatter(c, env.matchers, env.food, message.content))
    ensures Classify(c, env, message).Ok? ==> Classify(c, env, message).value.requests == []
    ensures Classify(c, env, message).Ok? ==> OnlyReactions(Classify(c, env, message).value.effects)
  {
    assert Classify(c, env, message) == Quiet(Chatter(c, env.matchers, env.food, message.content));
  }

  /** Nominating one's own message is refused before anything is looked
      up or written. */
  lemma FishingNeverStores(c: BotConfig, env: Env, message: Message, t: Trigger, motto: Message)
    requires Cleaning.ValidMotto(env.matchers, motto.content)
    requires SameUser(motto.author, message.author)
    ensures Nominate(c, env, message, t, motto) == Quiet(Reactions.Fishing(c))
  {
  }

  /** A message with a trigger from the bot itself, or replying to the
      bot, is refused and nothing is written. */
  lemma BotTriggerRefused(c: BotConfig, env: Env, message: Message)
    requires FirstTrigger(Triggers(c, env.matchers), message.content).Some?
    requires MessageChecks.IsBotto(message, env.bot) == Ok(true)
    ensures Classify(c, env, message) == Quiet(Reactions.SkynetPrevention(c))
    ensures Classify(c, env, message).Ok? && Classify(c, env, message).value.requests == []
  {
    FixedReactionsQuiet(c);
  }

  /** A trigger that replies to no message is told there is no motto. */
  lemma UnrepliedTriggerRefused(c: BotConfig, env: Env, message: Message)
    requires FirstTrigger(Triggers(c, env.matchers), message.content).Some?
    requires !SameUser(message.author, env.bot) && message.reference.None?
    ensures Classify(c, env, message) == Quiet(Reactions.NotReply(c))
    ensures Classify(c, env, message).Ok? && Classify(c, env, message).value.requests == []
  {
    FixedReactionsQuiet(c);
  }

  /** A motto that breaks the rules is refused before anything else is
      looked at. */
  lemma InvalidMottoRefused(c: BotConfig, env: Env, message: Message, t: Trigger, motto: Message)
    requires !Cleaning.ValidMotto(env.matchers, motto.content)
    ensures Nominate(c, env, message, t, motto) == Quiet(Reactions.Invalid(c))
    ensures Nominate(c, env, message, t, motto).Ok? && Nominate(c, env, message, t, motto).value.requests == []
  {
    FixedReactionsQuiet(c);
  }

  /** A message that itself starts with a new-motto trigger is never a
      valid motto, so nominating a nomination is refused as invalid. */
  lemma NominatedNominationInvalid(c: BotConfig, env: Env, message: Message, t: Trigger, motto: Message, i: nat)
    requires i < |env.matchers.newMotto| && env.matchers.newMotto[i].matchesAtStart(motto.content)
    ensures !Cleaning.ValidMotto(env.matchers, motto.content)
    ensures Nominate(c, env, message, t, motto) == Quiet(Reactions.Invalid(c))
  {
    InvalidMottoRefused(c, env, message, t, motto);
  }

  /** An excerpt the motto does not contain is refused as no reply. */
  lemma ExcerptMissingRefused(c: BotConfig, env: Env, message: Message, t: Trigger, motto: Message)
    requires Cleaning.ValidMotto(env.matchers, motto.content) && !SameUser(motto.author, message.author)
    requires var excerpt := Cleaning.CleanTrigger(t, message.content);
      excerpt != [] && !Text.Contains(motto.content, excerpt)
    ensures Nominate(c, env, message, t, motto) == Quiet(Reactions.NotReply(c))
    ensures Nominate(c, env, message, t, motto).Ok? && Nominate(c, env, message, t, motto).value.requests == []
  {
    FixedReactionsQuiet(c);
  }

  /** A tagged message that replies to nothing goes to the tag handler even
      when it also starts with a trigger, and so never stores anything. */
  lemma TagBeforeTrigger(c: BotConfig, env: Env, message: Message)
    requires env.matchers.tag(message.content) != [] && message.reference.None?
    ensures ProcessSuggestion(c, env, message) == ProcessTag(c, env, message, env.matchers.tag(message.content))
    ensures ProcessSuggestion(c, env, message).result.Ok? ==> ProcessSuggestion(c, env, message).result.value.requests == []
  {
  }

  /** A motto already stored, by text or by message id, is refused as a
      duplicate and nothing is written (unless reading the matches fails). */
  lemma RepeatNeverStores(c: BotConfig, env: Env, message: Message, t: Trigger, motto: Message, i: nat)
    requires Cleaning.ValidMotto(env.matchers, motto.content) && !SameUser(motto.author, message.author)
    requires var excerpt := Cleaning.CleanTrigger(t, message.content);
      excerpt == [] || Text.Contains(motto.content, excerpt)
    requires i < |env.mottos|
    requires Storage.Matches(env.mottos[i], Cleaning.CleanMessage(env.channels, motto.content, motto.serverEmojis), Some(motto.id))
    ensures Nominate(c, env, message, t, motto).Ok? ==> Nominate(c, env, message, t, motto) == Quiet(Reactions.Duplicate(c))
  {
    assert Nominate(c, env, message, t, motto) == StoreUnlessRepeat(c, env, message, motto);
    RepeatRefused(c, env, message, motto, i);
  }

  lemma RepeatRefused(c: BotConfig, env: Env, message: Message, motto: Message, i: nat)
    requires i < |env.mottos|
    requires Storage.Matches(env.mottos[i], Cleaning.CleanMessage(env.channels, motto.content, motto.serverEmojis), Some(motto.id))
    ensures StoreUnlessRepeat(c, env, message, motto).Ok? ==> StoreUnlessRepeat(c, env, message, motto) == Quiet(Reactions.Duplicate(c))
  {
    var text := Cleaning.CleanMessage(env.channels, motto.content, motto.serverEmojis);
    var repeat := Storage.IsRepeat(env.mottos, text, Some(motto.id));
    assert repeat.Ok? ==> repeat.value;
  }

  /** A stored nomination adds the pending marker and writes the new motto
      record. */
  lemma StoredNomination(c: BotConfig, env: Env, message: Message, motto: Message)
    requires Store(c, env, message, motto).Ok?
    ensures var out := Store(c, env, message, motto).value;
      var nominee := Storage.GetOrAddMember(env.members, motto.author, c.id, env.nomineeId).value.0;
      var nominator := Storage.GetOrAddMember(env.members, message.author, c.id, env.nominatorId).value.0;
      && out.effects == Reactions.Pending(c)
      && Storage.SaveMotto(NewMotto(c, motto, nominee, nominator), []).Ok?
      && Storage.SaveMotto(NewMotto(c, motto, nominee, nominator), []).value in out.requests
  {
  }

  /** The new motto record is an insert holding the motto message's id
      and no text yet. */
  lemma NewMottoSaved(c: BotConfig, motto: Message, nominee: Member, nominator: Member)
    ensures var r := Storage.SaveMotto(NewMotto(c, motto, nominee, nominator), []);
      && r.Ok? && r.value.Insert? && r.value.table == Storage.MottoTable
      && MottoColumn in r.value.fields && r.value.fields[MottoColumn] == Str("")
      && MessageIdColumn in r.value.fields && r.value.fields[MessageIdColumn] == Str(Text.NatToString(motto.id))
  {
    var m := NewMotto(c, motto, nominee, nominator);
    Storage.SavedDefault(m, MottoColumn);
    Storage.SavedDefault(m, MessageIdColumn);
  }

  /** The new motto record holds the message's time, no approval by the
      author, and approval exactly when no human moderation is required. */
  lemma NewMottoApproval(c: BotConfig, motto: Message, nominee: Member, nominator: Member)
    ensures var r := Storage.SaveMotto(NewMotto(c, motto, nominee, nominator), []);
      && r.Ok?
      && DateColumn in r.value.fields && r.value.fields[DateColumn] == Int(motto.createdAt)
      && ApprovedColumn in r.value.fields && r.value.fields[ApprovedColumn] == Bool(!c.humanModerationRequired)
      && ApprovedByAuthorColumn !in r.value.fields
  {
    var m := NewMotto(c, motto, nominee, nominator);
    Storage.SavedDefault(m, DateColumn);
    Storage.SavedDefault(m, ApprovedColumn);
    Storage.DefaultLeavesAuthorApproval(m);
  }

  // ---------------------------------------------------------------------
  // `on_message`.

  /** The Motto table as the sweep lists it: it reads the store again after
      the suggestion's writes, so a motto record inserted by this message is
      listed too. */
  function SweptMottos(env: Env, out: Dm.Outcome): (r: seq<Record>)
    ensures forall i :: 0 <= i < |env.mottos| ==> env.mottos[i] in r
    ensures forall i :: 0 <= i < |out.requests| && out.requests[i].Insert? && out.requests[i].table == Storage.MottoTable ==>
      Record(Some(env.mottoId), out.requests[i].fields) in r
  {
    env.mottos + Storage.Inserted(Storage.MottoTable, out.requests, env.mottoId)
  }

  /** Direct messages go to the direct-message handler; a message in a
      watched channel is handled as a suggestion and then, when `sweep`
      (the one-in-ten draw) comes up, the expired unapproved mottos are
      deleted. */
  function OnMessage(c: BotConfig, env: Env, dm: Dm.DmEnv, message: Message, sweep: bool): (t: Turn)
    ensures message.channel.ServerChannel? && !Watched(c, message.channel.name) ==> t == Turn(Quiet([]), env.limiter)
  {
    match message.channel
    case DirectChannel => Turn(Dm.Handle(c, dm, message), env.limiter)
    case ServerChannel(name) =>
      if !Watched(c, name) then Turn(Quiet([]), env.limiter)
      else
        var t := ProcessSuggestion(c, env, message);
        if !sweep || t.result.Err? then t
        else
          var deletions := Storage.RemoveUnapprovedRequests(SweptMottos(env, t.result.value), env.now, c.deleteUnapprovedAfterHours);
          match deletions
          case Err(e) => Turn(Err(e), t.limiter)
          case Ok(rs) => Turn(Ok(t.result.value.(requests := t.result.value.requests + rs)), t.limiter)
  }

  /** With the sweep drawn, a nomination of a message older than the safe
      period is deleted in the same turn that stores it: the sweep lists
      the record just inserted, which has no text yet. */
  lemma ExpiredNominationSwept(c: BotConfig, env: Env, dm: Dm.DmEnv, message: Message, motto: Message)
    requires message.channel.ServerChannel? && Watched(c, message.channel.name)
    requires ProcessSuggestion(c, env, message).result == Store(c, env, message, motto)
    requires Store(c, env, message, motto).Ok?
    requires motto.createdAt < env.now - c.deleteUnapprovedAfterHours * Storage.MicrosPerHour
    requires OnMessage(c, env, dm, message, true).result.Ok?
    ensures env.mottoId in Storage.AllDeletedIds(OnMessage(c, env, dm, message, true).result.value.requests)
  {
    var out := Store(c, env, message, motto).value;
    var nominee := Storage.GetOrAddMember(env.members, motto.author, c.id, env.nomineeId).value.0;
    var nominator := Storage.GetOrAddMember(env.members, message.author, c.id, env.nominatorId).value.0;
    StoredNomination(c, env, message, motto);
    NewMottoSaved(c, motto, nominee, nominator);
    NewMottoApproval(c, motto, nominee, nominator);
    var save := Storage.SaveMotto(NewMotto(c, motto, nominee, nominator), []).value;
    var k :| 0 <= k < |out.requests| && out.requests[k] == save;
    var x := Record(Some(env.mottoId), save.fields);
    var listing := SweptMottos(env, out);
    var hours := c.deleteUnapprovedAfterHours;
    var deletions := Storage.RemoveUnapprovedRequests(listing, env.now, hours);
    assert OnMessage(c, env, dm, message, true).result == Ok(out.(requests := out.requests + deletions.value));
    Storage.ExpiredRecordDeleted(listing, env.now, hours, x);
    Storage.AllDeletedIdsAppend(out.requests, deletions.value);
  }
}
