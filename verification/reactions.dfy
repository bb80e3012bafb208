/** What the bot does to a message for each outcome: which emoji it adds
    or removes, and what it replies. */
module Reactions {
  import opened Common
  import opened Chat
  import opened Settings
  import Food
  import Text

  const Snail := "\U{1F40C}"
  const RaisedHand := "\U{270B}"
  const ShrugEmoji := "\U{1F937}"
  const DizzyFace := "\U{1F635}"

  /** A reply, sent only when replies are switched on. */
  function Replies(c: BotConfig, text: string): seq<Effect> {
    if c.shouldReply then [Reply(text)] else []
  }

  /** Whether any of the effects is a reply. */
  predicate Replied(es: seq<Effect>) {
    exists i :: 0 <= i < |es| && es[i].Reply?
  }

  function SkynetPrevention(c: BotConfig): seq<Effect> {
    [AddReaction(c.reactions.reject), AddReaction(c.reactions.skynet)] + Replies(c, "Skynet prevention")
  }

  function NotReply(c: BotConfig): seq<Effect> {
    [AddReaction(c.reactions.unknown)] + Replies(c, "I see no motto!")
  }

  function Fishing(c: BotConfig): seq<Effect> {
    [AddReaction(c.reactions.reject), AddReaction(c.reactions.fishing)]
  }

  function Invalid(c: BotConfig): seq<Effect> {
    [AddReaction(c.reactions.reject), AddReaction(c.reactions.invalid)]
  }

  function Duplicate(c: BotConfig): seq<Effect> {
    [AddReaction(c.reactions.repeat), RemoveOwnReaction(c.reactions.pending)]
  }

  function Deleted(c: BotConfig): seq<Effect> {
    [AddReaction(c.reactions.deleted), AddReaction(c.reactions.reject), RemoveOwnReaction(c.reactions.pending)]
  }

  function Pending(c: BotConfig): seq<Effect> {
    [AddReaction(c.reactions.pending)]
  }

  /** The special reactions configured for an author, if any. */
  function SpecialFor(c: BotConfig, author: User): seq<string> {
    var key := Text.NatToString(author.id);
    if key in c.specialReactions then c.specialReactions[key] else []
  }

  /** A suggestion was accepted: the pending marker goes, the success
      marker comes, then one of the author's special reactions (if any),
      then the reply. */
  function Stored(c: BotConfig, motto: Message): seq<Effect> {
    var special := SpecialFor(c, motto.author);
    [RemoveOwnReaction(c.reactions.pending), AddReaction(c.reactions.success)]
      + (if special != [] then [AddRandomReaction(special)] else [])
      + Replies(c, "\"" + motto.content + "\" will be considered!")
  }

  function Party(c: BotConfig): seq<Effect> {
    var r := AddRandomReaction(c.reactions.party);
    [r, r, r, r, r]
  }

  /** The reactions to a food emoji: the item itself for an echo, a party,
      or the literal emoji, in the table's order. */
  function FoodEffects(c: BotConfig, responses: seq<Food.FoodResponse>, item: string): seq<Effect> {
    if responses == [] then []
    else
      var first := match responses[0]
        case Echo => [AddReaction(item)]
        case Party => Party(c)
        case Literal(e) => [AddReaction(e)];
      first + FoodEffects(c, responses[1..], item)
  }

  /** A food emoji the table does not know gets no reaction. */
  function FoodReaction(c: BotConfig, categories: seq<Food.Category>, item: string): seq<Effect> {
    match Food.LookupOf(categories, item)
    case None => []
    case Some(responses) => FoodEffects(c, responses, item)
  }

  function Poke(c: BotConfig): seq<Effect> { [AddRandomReaction(c.reactions.poke)] }
  function Love(c: BotConfig): seq<Effect> { [AddRandomReaction(c.reactions.love)] }
  function Hug(c: BotConfig): seq<Effect> { [AddRandomReaction(c.reactions.hug)] }
  function Cow(c: BotConfig): seq<Effect> { [AddRandomReaction(c.reactions.cow)] }
  function SnailReaction(): seq<Effect> { [AddReaction(Snail)] }
  function RateLimited(): seq<Effect> { [AddReaction(RaisedHand)] }
  function Shrug(): seq<Effect> { [AddReaction(ShrugEmoji)] }
  function UnrecognisedFood(): seq<Effect> { [AddReaction(DizzyFace)] }
  /** The second of the two wave definitions, which is the one in force. */
  function Wave(c: BotConfig): seq<Effect> { [AddReaction(c.reactions.wave)] }
  function InvalidEmoji(c: BotConfig): seq<Effect> { [AddReaction(c.reactions.invalidEmoji)] }
  function ValidEmoji(c: BotConfig): seq<Effect> { [AddReaction(c.reactions.validEmoji)] }
  function UnknownDm(c: BotConfig): seq<Effect> { [AddReaction(c.reactions.unknown)] }

  /** One reaction per letter, in order. */
  function FavoriteBand(c: BotConfig): (es: seq<Effect>)
    ensures |es| == |c.reactions.favoriteBand|
    ensures forall i :: 0 <= i < |es| ==> es[i] == AddReaction(c.reactions.favoriteBand[i])
  {
    seq(|c.reactions.favoriteBand|, i requires 0 <= i < |c.reactions.favoriteBand| => AddReaction(c.reactions.favoriteBand[i]))
  }

  // ---------------------------------------------------------------------
  // The markers each outcome leaves on the message.

  /** Rejections add their two markers and leave every other marker,
      the pending one included, as it was. */
  lemma RejectionsKeepMarkers(c: BotConfig, mine: set<string>, pick: seq<string> -> nat)
    ensures OwnReactions(mine, Fishing(c), pick) == mine + {c.reactions.reject, c.reactions.fishing}
    ensures OwnReactions(mine, Invalid(c), pick) == mine + {c.reactions.reject, c.reactions.invalid}
    ensures OwnReactions(mine, SkynetPrevention(c), pick) == mine + {c.reactions.reject, c.reactions.skynet}
    ensures OwnReactions(mine, NotReply(c), pick) == mine + {c.reactions.unknown}
  {
    var rs := c.reactions;
    OwnReactionsSteps(mine, AddReaction(rs.reject), AddReaction(rs.fishing), AddReaction(rs.fishing), pick);
    OwnReactionsSteps(mine, AddReaction(rs.reject), AddReaction(rs.invalid), AddReaction(rs.invalid), pick);
    OwnReactionsSteps(mine, AddReaction(rs.reject), AddReaction(rs.skynet), AddReaction(rs.skynet), pick);
    OwnReactionsSteps(mine, AddReaction(rs.unknown), AddReaction(rs.unknown), AddReaction(rs.unknown), pick);
    var afterSkynet := mine + {rs.reject, rs.skynet};
    OwnReactionsAppend(mine, [AddReaction(rs.reject), AddReaction(rs.skynet)], Replies(c, "Skynet prevention"), pick);
    MessagesKeepReactions(afterSkynet, Replies(c, "Skynet prevention"), pick);
    OwnReactionsAppend(mine, [AddReaction(rs.unknown)], Replies(c, "I see no motto!"), pick);
    MessagesKeepReactions(mine + {rs.unknown}, Replies(c, "I see no motto!"), pick);
  }

  /** Whether the outcome replies depends only on the reply switch. */
  lemma RepliesFollowSwitch(c: BotConfig, motto: Message)
    ensures Replied(SkynetPrevention(c)) <==> c.shouldReply
    ensures Replied(NotReply(c)) <==> c.shouldReply
    ensures Replied(Stored(c, motto)) <==> c.shouldReply
    ensures !Replied(Fishing(c)) && !Replied(Invalid(c)) && !Replied(Duplicate(c)) && !Replied(Deleted(c))
  {
    var es := Stored(c, motto);
    if c.shouldReply {
      assert es[|es| - 1].Reply?;
      assert SkynetPrevention(c)[2].Reply?;
      assert NotReply(c)[1].Reply?;
    }
  }

  /** A duplicate or a deleted original takes the pending marker off,
      whatever else was there. */
  lemma DuplicateAndDeletedClearPending(c: BotConfig, mine: set<string>, pick: seq<string> -> nat)
    ensures OwnReactions(mine, Duplicate(c), pick) == (mine + {c.reactions.repeat}) - {c.reactions.pending}
    ensures OwnReactions(mine, Deleted(c), pick) == (mine + {c.reactions.deleted, c.reactions.reject}) - {c.reactions.pending}
    ensures c.reactions.pending !in OwnReactions(mine, Duplicate(c), pick)
    ensures c.reactions.pending !in OwnReactions(mine, Deleted(c), pick)
  {
    var rs := c.reactions;
    OwnReactionsSteps(mine, AddReaction(rs.repeat), RemoveOwnReaction(rs.pending), RemoveOwnReaction(rs.pending), pick);
    OwnReactionsSteps(mine, AddReaction(rs.deleted), AddReaction(rs.reject), RemoveOwnReaction(rs.pending), pick);
  }

  /** After an accepted suggestion the pending marker is gone unless the
      success marker or the special reaction picked is that same emoji. */
  lemma StoredMarkers(c: BotConfig, motto: Message, mine: set<string>, pick: seq<string> -> nat)
    ensures var special := SpecialFor(c, motto.author);
      var added := {c.reactions.success} + (if special != [] then {special[pick(special) % |special|]} else {});
      OwnReactions(mine, Stored(c, motto), pick) == (mine - {c.reactions.pending}) + added
    ensures var special := SpecialFor(c, motto.author);
      c.reactions.pending in OwnReactions(mine, Stored(c, motto), pick) <==>
        c.reactions.pending == c.reactions.success || (special != [] && special[pick(special) % |special|] == c.reactions.pending)
  {
    var special := SpecialFor(c, motto.author);
    var head := [RemoveOwnReaction(c.reactions.pending), AddReaction(c.reactions.success)];
    var extra := if special != [] then [AddRandomReaction(special)] else [];
    var reply := Replies(c, "\"" + motto.content + "\" will be considered!");
    assert Stored(c, motto) == head + extra + reply;
    OwnReactionsAppend(mine, head + extra, reply, pick);
    OwnReactionsAppend(mine, head, extra, pick);
    OwnReactionsSteps(mine, head[0], head[1], head[1], pick);
    var afterHead := (mine - {c.reactions.pending}) + {c.reactions.success};
    if special != [] {
      OwnReactionsSteps(afterHead, AddRandomReaction(special), AddRandomReaction(special), AddRandomReaction(special), pick);
    }
    MessagesKeepReactions(OwnReactions(mine, head + extra, pick), reply, pick);
  }

  /** A food reaction only ever adds emoji. */
  lemma {:induction false} FoodOnlyAdds(c: BotConfig, responses: seq<Food.FoodResponse>, item: string, mine: set<string>, pick: seq<string> -> nat)
    ensures mine <= OwnReactions(mine, FoodEffects(c, responses, item), pick)
    decreases |responses|
  {
    if responses != [] {
      var first := match responses[0]
        case Echo => [AddReaction(item)]
        case Party => Party(c)
        case Literal(e) => [AddReaction(e)];
      var mid := OwnReactions(mine, first, pick);
      OwnReactionsAppend(mine, first, FoodEffects(c, responses[1..], item), pick);
      FoodOnlyAdds(c, responses[1..], item, mid, pick);
      if responses[0].Party? {
        PartyOnlyAdds(c, mine, pick);
      } else {
        OwnReactionsSteps(mine, first[0], first[0], first[0], pick);
      }
    }
  }

  lemma PartyOnlyAdds(c: BotConfig, mine: set<string>, pick: seq<string> -> nat)
    ensures mine <= OwnReactions(mine, Party(c), pick)
  {
    var r := AddRandomReaction(c.reactions.party);
    assert Party(c) == [r, r, r] + [r, r];
    OwnReactionsAppend(mine, [r, r, r], [r, r], pick);
    OwnReactionsSteps(mine, r, r, r, pick);
    OwnReactionsSteps(OwnReactions(mine, [r, r, r], pick), r, r, r, pick);
  }

  /** The emoji a list of responses names outright (echoes name the item;
      parties name none). */
  function Named(responses: seq<Food.FoodResponse>, item: string): set<string> {
    if responses == [] then {}
    else
      (match responses[0]
       case Echo => {item}
       case Party => {}
       case Literal(e) => {e}) + Named(responses[1..], item)
  }

  /** Every emoji the responses name ends up on the message. */
  lemma {:induction false} FoodAddsNamed(c: BotConfig, responses: seq<Food.FoodResponse>, item: string, mine: set<string>, pick: seq<string> -> nat)
    ensures mine + Named(responses, item) <= OwnReactions(mine, FoodEffects(c, responses, item), pick)
    decreases |responses|
  {
    if responses != [] {
      var first := match responses[0]
        case Echo => [AddReaction(item)]
        case Party => Party(c)
        case Literal(e) => [AddReaction(e)];
      var mid := OwnReactions(mine, first, pick);
      OwnReactionsAppend(mine, first, FoodEffects(c, responses[1..], item), pick);
      FoodAddsNamed(c, responses[1..], item, mid, pick);
      assert Named(responses, item) == Named([responses[0]], item) + Named(responses[1..], item);
      if !responses[0].Party? {
        OwnReactionsSteps(mine, first[0], first[0], first[0], pick);
        assert mid == mine + Named([responses[0]], item);
      } else {
        PartyOnlyAdds(c, mine, pick);
      }
    }
  }

  /** Each response adds its own reactions: one for an echo or a literal,
      five for a party. */
  lemma {:induction false} FoodEffectCount(c: BotConfig, responses: seq<Food.FoodResponse>, item: string)
    ensures |FoodEffects(c, responses, item)| == |responses| + 4 * PartyCount(responses)
    decreases |responses|
  {
    if responses != [] {
      FoodEffectCount(c, responses[1..], item);
    }
  }

  function PartyCount(responses: seq<Food.FoodResponse>): nat {
    if responses == [] then 0 else (if responses[0].Party? then 1 else 0) + PartyCount(responses[1..])
  }

  /** Butter gets the puzzled face from the default table. */
  lemma ButterReaction(c: BotConfig)
    ensures FoodReaction(c, Food.DefaultCategories, Food.Butter) == [AddReaction("\U{1F615}")]
  {
    Food.ButterIsWeird();
    LiteralReaction(c, Food.DefaultCategories, Food.Butter, "\U{1F615}");
  }

  /** A food the table answers with one literal emoji gets that emoji. */
  lemma LiteralReaction(c: BotConfig, categories: seq<Food.Category>, item: string, e: string)
    requires Food.LookupOf(categories, item) == Some([Food.Literal(e)])
    ensures FoodReaction(c, categories, item) == [AddReaction(e)]
  {
    assert FoodEffects(c, [Food.Literal(e)], item) == [AddReaction(e)];
  }
}
