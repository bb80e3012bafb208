/** The configuration the bot's handlers read, and the compiled patterns
    they match messages against. Every pattern is an opaque function value:
    what it matches is fixed by the configuration, not by this model. */
module Settings {
  import opened Common

  /** The emoji the bot reacts with, one per outcome, and the lists it
      picks from at random. */
  datatype ReactionNames = ReactionNames(
    reject: string,
    skynet: string,
    unknown: string,
    fishing: string,
    invalid: string,
    repeat: string,
    pending: string,
    deleted: string,
    success: string,
    invalidEmoji: string,
    validEmoji: string,
    wave: string,
    deleteConfirmed: string,
    poke: seq<string>,
    love: seq<string>,
    hug: seq<string>,
    party: seq<string>,
    cow: seq<string>,
    favoriteBand: seq<string>)

  datatype BotConfig = BotConfig(
    reactions: ReactionNames,
    shouldReply: bool,
    /** The emoji a nominee uses to approve a suggestion. */
    approvalReaction: string,
    /** The emoji that confirms a request to erase one's data. */
    confirmDeleteReaction: string,
    /** Extra emoji for particular authors, keyed by their chat id as text. */
    specialReactions: map<string, seq<string>>,
    humanModerationRequired: bool,
    /** The bot instance's id, written to every record it creates. */
    id: Option<string>,
    triggerOnMention: bool,
    includeChannels: seq<string>,
    excludeChannels: seq<string>,
    randomIntervalMinutes: int,
    randomIntervalMinutesPerUser: int,
    leaderboardLink: Option<string>,
    deleteUnapprovedAfterHours: int)

  /** A compiled trigger: whether it matches at the start of a text, and the
      text with every match of it removed. */
  datatype Trigger = Trigger(matchesAtStart: string -> bool, removeAll: string -> string)

  datatype Matchers = Matchers(
    /** Every match of the "tagged with a command" pattern. */
    tag: string -> seq<string>,
    /** Every match of the `!random <search>` pattern, as the search text. */
    randomTag: string -> seq<string>,
    /** The patterns that recognise a mention of the bot. */
    mention: seq<Trigger>,
    /** The configured new-motto triggers. */
    newMotto: seq<Trigger>,
    /** Every one of these must occur in a valid motto... */
    matching: seq<string -> bool>,
    /** ...and none of these. */
    excluding: seq<string -> bool>,
    pokes: string -> bool,
    sorry: string -> bool,
    love: string -> bool,
    hug: string -> bool,
    band: string -> bool,
    cow: string -> bool,
    /** The first food emoji the text mentions, if any. */
    food: string -> Option<string>,
    notFood: string -> bool)

  /** The triggers tried on a message, in order: the mention patterns come
      first when the bot answers to mentions. */
  function Triggers(c: BotConfig, x: Matchers): (ts: seq<Trigger>)
    ensures c.triggerOnMention ==> ts == x.mention + x.newMotto
    ensures !c.triggerOnMention ==> ts == x.newMotto
  {
    if c.triggerOnMention then x.mention + x.newMotto else x.newMotto
  }

  /** The first trigger that matches the start of `text`. */
  function FirstTrigger(ts: seq<Trigger>, text: string): (r: Option<nat>)
    ensures r.Some? ==> r.value < |ts| && ts[r.value].matchesAtStart(text)
    ensures r.Some? ==> forall j :: 0 <= j < r.value ==> !ts[j].matchesAtStart(text)
    ensures r.None? <==> forall j :: 0 <= j < |ts| ==> !ts[j].matchesAtStart(text)
  {
    if ts == [] then None
    else if ts[0].matchesAtStart(text) then Some(0)
    else match FirstTrigger(ts[1..], text)
      case None => None
      case Some(k) => Some(k + 1)
  }

  /** With mentions on, a matching mention pattern wins over every
      configured trigger. */
  lemma MentionFirst(c: BotConfig, x: Matchers, text: string, k: nat)
    requires c.triggerOnMention && k < |x.mention| && x.mention[k].matchesAtStart(text)
    ensures FirstTrigger(Triggers(c, x), text).Some?
    ensures FirstTrigger(Triggers(c, x), text).value < |x.mention|
  {
    assert Triggers(c, x)[k] == x.mention[k];
  }
}
