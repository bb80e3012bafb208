/** The chat platform as the bot sees it: users, channels, messages and the
    reactions on them, and the actions the bot takes in reply. */
module Chat {
  import opened Common

  /** A chat user: the numeric id, the account name, the nickname in the
      server (if any) and the name the platform displays. */
  datatype User = User(id: nat, name: string, nick: Option<string>, displayName: string)

  /** Two user objects are the same user when their ids agree. */
  predicate SameUser(a: User, b: User) {
    a.id == b.id
  }

  /** A server channel (by name) or a direct-message channel. */
  datatype Channel = ServerChannel(name: string) | DirectChannel

  /** A custom emoji of the server: its name and how it is written in text. */
  datatype ServerEmoji = ServerEmoji(name: string, rendered: string)

  /** One reaction on a message: its emoji, and whether the bot placed it. */
  datatype Reaction = Reaction(emoji: string, me: bool)

  datatype Message = Message(
    id: nat,
    author: User,
    content: string,
    channel: Channel,
    reference: Option<Resolution>,
    createdAt: int,
    serverEmojis: seq<ServerEmoji>,
    reactions: seq<Reaction>)

  /** What a reply's reference resolves to: nothing the client could fetch,
      a message that has since been deleted, or the message itself. */
  datatype Resolution = Unresolved | DeletedReference | Resolved(message: Message)

  /** The actions the bot takes on the message it is handling. */
  datatype Effect =
    | AddReaction(emoji: string)
      /** Adds one emoji picked at random from `choices`. */
    | AddRandomReaction(choices: seq<string>)
      /** Removes the bot's own reaction. */
    | RemoveOwnReaction(emoji: string)
    | Reply(text: string)
      /** Replies, and reacts to that reply with `emoji`. */
    | ReplyAndReact(text: string, emoji: string)
      /** Sends a message to the channel (or the user's DM channel). */
    | Send(text: string)

  /** Every random reaction in `effects` has something to pick from;
      picking from an empty list raises IndexError before anything is
      sent. */
  predicate Choosable(effects: seq<Effect>) {
    forall i :: 0 <= i < |effects| && effects[i].AddRandomReaction? ==> effects[i].choices != []
  }

  /** Whether the bot's own marker `emoji` is on the message. */
  predicate HasOwnReaction(m: Message, emoji: string) {
    exists i :: 0 <= i < |m.reactions| && m.reactions[i].me && m.reactions[i].emoji == emoji
  }

  /** The emoji the bot has placed on a message after carrying out
      `effects`; `pick` says which choice each random reaction took. */
  function OwnReactions(mine: set<string>, effects: seq<Effect>, pick: seq<string> -> nat): set<string>
    decreases |effects|
  {
    if effects == [] then mine else OwnReactions(Step(mine, effects[0], pick), effects[1..], pick)
  }

  function Step(mine: set<string>, effect: Effect, pick: seq<string> -> nat): set<string> {
    match effect
    case AddReaction(e) => mine + {e}
    case AddRandomReaction(cs) => if cs == [] then mine else mine + {cs[pick(cs) % |cs|]}
    case RemoveOwnReaction(e) => mine - {e}
    case _ => mine
  }

  /** Carrying out two effect lists one after the other. */
  lemma {:induction false} OwnReactionsAppend(mine: set<string>, a: seq<Effect>, b: seq<Effect>, pick: seq<string> -> nat)
    ensures OwnReactions(mine, a + b, pick) == OwnReactions(OwnReactions(mine, a, pick), b, pick)
    decreases |a|
  {
    if a != [] {
      assert (a + b)[1..] == a[1..] + b;
      OwnReactionsAppend(Step(mine, a[0], pick), a[1..], b, pick);
    } else {
      assert a + b == b;
    }
  }

  /** Carrying out a short list of effects one at a time. */
  lemma OwnReactionsSteps(mine: set<string>, a: Effect, b: Effect, c: Effect, pick: seq<string> -> nat)
    ensures OwnReactions(mine, [a], pick) == Step(mine, a, pick)
    ensures OwnReactions(mine, [a, b], pick) == Step(Step(mine, a, pick), b, pick)
    ensures OwnReactions(mine, [a, b, c], pick) == Step(Step(Step(mine, a, pick), b, pick), c, pick)
  {
    var s1 := Step(mine, a, pick);
    var s2 := Step(s1, b, pick);
    var s3 := Step(s2, c, pick);
    assert OwnReactions(s1, [], pick) == s1;
    assert OwnReactions(mine, [a], pick) == s1 by { assert [a][1..] == []; }
    assert OwnReactions(s1, [b], pick) == s2 by { assert [b][1..] == []; }
    assert OwnReactions(mine, [a, b], pick) == s2 by { assert [a, b][1..] == [b]; }
    assert OwnReactions(s2, [c], pick) == s3 by { assert [c][1..] == []; }
    assert OwnReactions(s1, [b, c], pick) == s3 by { assert [b, c][1..] == [c]; }
    assert OwnReactions(mine, [a, b, c], pick) == s3 by { assert [a, b, c][1..] == [b, c]; }
  }

  /** Replies and sent messages leave the reactions on the handled message
      alone. */
  lemma {:induction false} MessagesKeepReactions(mine: set<string>, es: seq<Effect>, pick: seq<string> -> nat)
    requires forall i :: 0 <= i < |es| ==> es[i].Reply? || es[i].ReplyAndReact? || es[i].Send?
    ensures OwnReactions(mine, es, pick) == mine
    decreases |es|
  {
    if es != [] {
      MessagesKeepReactions(mine, es[1..], pick);
    }
  }
}
