/** Direct messages to the bot: the command they hold, and what the bot
    does about it. */
module Dm {
  import opened Common
  import Text
  import opened Chat
  import opened Settings
  import opened Models
  import Storage
  import Reactions
  import Leaderboard

  const HelpWords: set<string> := {"!help", "help", "help!", "halp", "halp!", "!halp"}

  /** The emoji variation selector, stripped from an emoji argument. */
  const VariationSelector: char := '\U{FE0F}'

  /** The text between a random motto and its nominee's name, as the
      source spells it. */
  const MottoSeparator := "\U{00E2}\U{20AC}\U{201D}"

  datatype Command =
    | Help
    | ShowLeaderboard
    | Version
    | RandomMotto(search: Option<string>)
    | Link
    | Nick(option: Option<string>)
    | DeleteData
    | SetEmoji(content: Option<string>)
    | Unknown

  /** The second part of `text.split(None, 1)`, when there is one. */
  function Argument(text: string): (r: Option<string>)
    ensures r.Some? ==> r.value != [] && !Text.IsSpace(r.value[0])
  {
    var parts := Text.SplitOnce(text);
    if |parts| == 2 then Some(parts[1]) else None
  }

  /** An emoji argument with surrounding whitespace, then surrounding
      variation selectors, removed. */
  function EmojiArgument(text: string): Option<string> {
    match Argument(text)
    case None => None
    case Some(a) => Some(Text.StripChars(Text.Strip(a), {VariationSelector}))
  }

  /** The command a direct message holds, read from its lower-cased and
      stripped text. */
  function Parse(content: string, link: Option<string>): (cmd: Command)
    ensures cmd.Nick? ==> Text.StartsWith(Text.Strip(Text.Lower(content)), "!nick")
    ensures cmd.SetEmoji? ==> Text.StartsWith(Text.Strip(Text.Lower(content)), "!emoji")
    ensures cmd.RandomMotto? ==> Text.StartsWith(Text.Strip(Text.Lower(content)), "!random")
    ensures cmd == Link ==> link.Some?
  {
    ParseText(Text.Strip(Text.Lower(content)), link)
  }

  /** The command in a normalised text; `!link` is a command only when a
      link is configured, and any word starting with `!nick`, `!random` or
      `!emoji` counts as that command. */
  function ParseText(text: string, link: Option<string>): (cmd: Command)
    ensures cmd.Nick? ==> Text.StartsWith(text, "!nick")
    ensures cmd.SetEmoji? ==> Text.StartsWith(text, "!emoji")
    ensures cmd.RandomMotto? ==> Text.StartsWith(text, "!random")
    ensures cmd == Link ==> link.Some?
  {
    if text in HelpWords then Help
    else if text == "!leaderboard" then ShowLeaderboard
    else if text == "!version" then Version
    else if Text.StartsWith(text, "!random") then RandomMotto(Argument(text))
    else if text == "!link" && link.Some? then Link
    else if Text.StartsWith(text, "!nick") then Nick(Argument(text))
    else if text == "!delete" then DeleteData
    else if Text.StartsWith(text, "!emoji") then SetEmoji(EmojiArgument(text))
    else Unknown
  }

  /** Commands do not depend on letter case. */
  lemma ParseIgnoresCase(content: string, link: Option<string>)
    ensures Parse(Text.Lower(content), link) == Parse(content, link)
  {
    Text.LowerIdempotent(content);
  }

  /** Commands do not depend on surrounding whitespace. */
  lemma ParseIgnoresPadding(p: string, content: string, q: string, link: Option<string>)
    requires forall i :: 0 <= i < |p| ==> Text.IsSpace(p[i])
    requires forall i :: 0 <= i < |q| ==> Text.IsSpace(q[i])
    ensures Parse(p + content + q, link) == Parse(content, link)
  {
    NormalisedIgnoresPadding(p, content, q);
  }

  lemma NormalisedIgnoresPadding(p: string, content: string, q: string)
    requires forall i :: 0 <= i < |p| ==> Text.IsSpace(p[i])
    requires forall i :: 0 <= i < |q| ==> Text.IsSpace(q[i])
    ensures Text.Strip(Text.Lower(p + content + q)) == Text.Strip(Text.Lower(content))
  {
    Text.SpaceIsCaseBlind();
    Text.LowerAppend(p + content, q);
    Text.LowerAppend(p, content);
    var lp, lc, lq := Text.Lower(p), Text.Lower(content), Text.Lower(q);
    assert Text.Lower(p + content + q) == lp + lc + lq;
    assert forall i :: 0 <= i < |lp| ==> Text.IsSpace(lp[i]) by {
      forall i | 0 <= i < |lp| ensures Text.IsSpace(lp[i]) {
        assert lp[i] == Text.LowerChar(p[i]);
      }
    }
    assert forall i :: 0 <= i < |lq| ==> Text.IsSpace(lq[i]) by {
      forall i | 0 <= i < |lq| ensures Text.IsSpace(lq[i]) {
        assert lq[i] == Text.LowerChar(q[i]);
      }
    }
    Text.StripPadded(lp, lc, lq, Text.IsSpace);
  }

  /** What `!emoji` does with its argument. */
  datatype EmojiAction = ClearEmoji | ChangeEmoji(emoji: string) | RejectEmoji

  /** No argument, or one that strips to nothing, clears the emoji; a known
      emoji is set; anything else is refused. */
  function EmojiChoice(content: Option<string>, known: set<string>): (a: EmojiAction)
    ensures a == ClearEmoji <==> !Present(content)
    ensures a.ChangeEmoji? <==> Present(content) && content.value in known
    ensures a.ChangeEmoji? ==> a.emoji == content.value
  {
    if !Present(content) then ClearEmoji
    else if content.value in known then ChangeEmoji(content.value)
    else RejectEmoji
  }

  /** Everything a direct message handler consults besides the message:
      the bot's own user, the two tables, the id the store gives a member
      record it creates, the random pick, the pattern compiler (`None`
      when the search is no valid pattern), the set of known emoji, the
      help and version texts, and the leaders the store returns. */
  datatype DmEnv = DmEnv(
    bot: User,
    mottos: seq<Record>,
    members: seq<Record>,
    newMemberId: string,
    pick: nat,
    compile: string -> Option<string -> bool>,
    knownEmoji: set<string>,
    helpText: string,
    version: string,
    leaders: seq<Member>)

  /** What the handler does: actions on the chat, and changes to the
      store. */
  datatype Outcome = Outcome(effects: seq<Effect>, requests: seq<Storage.Request>)

  const NickOnText := "The leaderboard will now display your server-specific nickname instead of your Discord username. To return to your username, type `!nick off`. "
  const NickOffText := "The leaderboard will now display your Discord username instead of your server-specific nickname. To return to your nickname, type `!nick on`. "
  const NickUsageText := "To display your server-specific nickname on the leaderboard, type `!nick on`. To use your Discord username, type `!nick off`. "
  const AllOutText := "Sorry mate, I'm all out."

  function DeleteConfirmText(c: BotConfig): string {
    "Are you sure you want to delete all your data from the leaderboard? This will include any mottos of yours that were nominated by other people. If so, react to this message with "
      + c.confirmDeleteReaction + ". Otherwise, ignore this message. "
  }

  function VersionText(c: BotConfig, version: string): string {
    var response := "Version: " + version;
    if Present(c.id) then response + " (" + c.id.value + ")" else response
  }

  /** A random motto and the display name of its nominee. */
  function RandomReply(m: Motto): Result<string> {
    match m.member
    case Linked(nominee) => Ok(Show(m.motto) + MottoSeparator + DisplayName(nominee))
    case Key(_) => Err(AttributeError)
  }

  /** `!nick on` and `!nick off`: the member record is found or created,
      then the option written. */
  function SwitchNick(c: BotConfig, env: DmEnv, author: User, on: bool): Result<Outcome> {
    var (member, added) :- Storage.GetOrAddMember(env.members, author, c.id, env.newMemberId);
    var update :- Storage.SetNickOption(member, on);
    Ok(Outcome([Send(if on then NickOnText else NickOffText)], added + [update]))
  }

  /** `!emoji`: a clear or a change writes through the member record; a
      refused emoji only reacts. */
  function ChangeEmojiOutcome(c: BotConfig, env: DmEnv, author: User, action: EmojiAction): Result<Outcome> {
    if action == RejectEmoji then Ok(Outcome(Reactions.InvalidEmoji(c), []))
    else
      var emoji := if action.ChangeEmoji? then action.emoji else "";
      var (member, added) :- Storage.GetOrAddMember(env.members, author, c.id, env.newMemberId);
      var update :- Storage.UpdateEmoji(member, emoji);
      var written := if update.Some? then [update.value] else [];
      Ok(Outcome(Reactions.ValidEmoji(c), added + written))
  }

  /** `process_dm`. The bot's own messages are ignored. */
  function Handle(c: BotConfig, env: DmEnv, message: Message): (r: Result<Outcome>)
    ensures SameUser(message.author, env.bot) ==> r == Ok(Outcome([], []))
    ensures r.Ok? && r.value.requests != [] ==>
      var cmd := Parse(message.content, c.leaderboardLink);
      !SameUser(message.author, env.bot) && (cmd.Nick? || cmd.SetEmoji?)
  {
    if SameUser(message.author, env.bot) then Ok(Outcome([], []))
    else
      var cmd := Parse(message.content, c.leaderboardLink);
      var r := Run(c, env, message.author, cmd);
      if r.Ok? && !cmd.Nick? && !cmd.SetEmoji? then
        OnlyNickAndEmojiWrite(c, env, message.author, cmd);
        r
      else r
  }

  /** What one command, sent by `author`, does. */
  function Run(c: BotConfig, env: DmEnv, author: User, cmd: Command): Result<Outcome>
    requires cmd == Link ==> c.leaderboardLink.Some?
  {
    match cmd
    case Help => Ok(Outcome([Send(env.helpText)], []))
    case ShowLeaderboard =>
      if env.leaders == [] then Ok(Outcome([Send(Leaderboard.EmptyBoard)], []))
      else
        var board :- Leaderboard.Lines(env.leaders, Leaderboard.Positions(env.leaders));
        Ok(Outcome([Send(board)], []))
    case Version => Ok(Outcome([Send(VersionText(c, env.version))], []))
    case RandomMotto(search) =>
      var pattern := if search.Some? then env.compile(search.value) else None;
      var motto :- Storage.RandomMotto(env.mottos, env.members, search, pattern, env.pick);
      if motto.None? then Ok(Outcome([Send(AllOutText)], []))
      else
        var text :- RandomReply(motto.value);
        Ok(Outcome([Send(text)], []))
    case Link => Ok(Outcome([Send(c.leaderboardLink.value)], []))
    case Nick(option) => NickOutcome(c, env, author, option)
    case DeleteData => Ok(Outcome([ReplyAndReact(DeleteConfirmText(c), c.reactions.pending)], []))
    case SetEmoji(content) => ChangeEmojiOutcome(c, env, author, EmojiChoice(content, env.knownEmoji))
    case Unknown => Ok(Outcome(Reactions.UnknownDm(c), []))
  }

  /** `!nick` with its argument: `on` and `off` switch, anything else
      explains the usage. */
  function NickOutcome(c: BotConfig, env: DmEnv, author: User, option: Option<string>): Result<Outcome> {
    if option == Some("on") then SwitchNick(c, env, author, true)
    else if option == Some("off") then SwitchNick(c, env, author, false)
    else Ok(Outcome([Send(NickUsageText)], []))
  }

  /** Whether a request writes the given field values into a member record. */
  predicate WritesMember(r: Storage.Request, fields: map<Column, Value>) {
    r.Update? && r.table == Storage.MemberTable && r.fields == fields
  }

  /** `!nick on` and `!nick off` end with the option written (and, when
      off, the nickname cleared); any other argument writes nothing. */
  lemma NickCommand(c: BotConfig, env: DmEnv, author: User, option: Option<string>)
    requires Run(c, env, author, Nick(option)).Ok?
    ensures var out := Run(c, env, author, Nick(option)).value;
      && (option == Some("on") ==> out.requests != [] && WritesMember(out.requests[|out.requests| - 1], map[UseNicknameColumn := Bool(true)]))
      && (option == Some("off") ==> out.requests != [] && WritesMember(out.requests[|out.requests| - 1],
            map[UseNicknameColumn := Bool(false), NicknameColumn := Null]))
      && (option != Some("on") && option != Some("off") ==> out == Outcome([Send(NickUsageText)], []))
  {
    assert Run(c, env, author, Nick(option)) == NickOutcome(c, env, author, option);
    if option == Some("on") {
      SwitchNickWrites(c, env, author, true);
    } else if option == Some("off") {
      SwitchNickWrites(c, env, author, false);
    }
  }

  /** Switching ends with the option written to the member record. */
  lemma SwitchNickWrites(c: BotConfig, env: DmEnv, author: User, on: bool)
    requires SwitchNick(c, env, author, on).Ok?
    ensures var out := SwitchNick(c, env, author, on).value;
      && out.requests != []
      && WritesMember(out.requests[|out.requests| - 1],
           if on then map[UseNicknameColumn := Bool(true)] else map[UseNicknameColumn := Bool(false), NicknameColumn := Null])
  {
  }

  /** A refused emoji writes nothing; an accepted or cleared one writes
      only the Emoji field, and only when it changes. */
  lemma EmojiCommand(c: BotConfig, env: DmEnv, author: User, content: Option<string>)
    requires Run(c, env, author, SetEmoji(content)).Ok?
    ensures var out := Run(c, env, author, SetEmoji(content)).value;
      && (EmojiChoice(content, env.knownEmoji) == RejectEmoji ==> out == Outcome(Reactions.InvalidEmoji(c), []))
      && (EmojiChoice(content, env.knownEmoji) != RejectEmoji ==> out.effects == Reactions.ValidEmoji(c))
      && (forall i :: 0 <= i < |out.requests| ==> out.requests[i].Insert? || WritesMember(out.requests[i],
            map[EmojiColumn := Str(if Present(content) then content.value else "")]))
  {
    assert Run(c, env, author, SetEmoji(content)) == ChangeEmojiOutcome(c, env, author, EmojiChoice(content, env.knownEmoji));
  }

  /** The bot never acts on its own direct messages. */
  lemma OwnMessagesIgnored(c: BotConfig, env: DmEnv, message: Message)
    requires SameUser(message.author, env.bot)
    ensures Handle(c, env, message) == Ok(Outcome([], []))
  {
  }

  /** A word and a plain argument give that argument. */
  lemma ArgumentAfterWord(w: string, a: string)
    requires w != [] && forall i :: 0 <= i < |w| ==> !Text.IsSpace(w[i])
    requires a != [] && !Text.IsSpace(a[0])
    ensures Argument(w + " " + a) == Some(a)
  {
    Text.SplitWord(w, a);
  }

  /** A word starting with `!nick` (`!nick`, `!nickname`, ...) followed by
      an option is `!nick` with that option. */
  lemma NickWithOption(w: string, a: string, link: Option<string>)
    requires Text.StartsWith(w, "!nick") && forall i :: 0 <= i < |w| ==> !Text.IsSpace(w[i])
    requires a != [] && !Text.IsSpace(a[0])
    ensures ParseText(w + " " + a, link) == Nick(Some(a))
  {
    ArgumentAfterWord(w, a);
    assert (w + " " + a)[..5] == w[..5];
    NickNotEarlier(w + " " + a, link);
  }

  /** A text starting with `!nick` is none of the commands tried before
      `!nick`. */
  lemma NickNotEarlier(text: string, link: Option<string>)
    requires Text.StartsWith(text, "!nick")
    ensures ParseText(text, link) == Nick(Argument(text))
  {
    assert text[1] == 'n';
    assert text !in HelpWords;
    assert text != "!leaderboard" && text != "!version" && text != "!link";
    assert !Text.StartsWith(text, "!random") by {
      assert "!random"[1] == 'r';
    }
  }

  /** A text starting with `!emoji` is none of the commands tried before
      `!emoji`. */
  lemma EmojiNotEarlier(text: string, link: Option<string>)
    requires Text.StartsWith(text, "!emoji")
    ensures ParseText(text, link) == SetEmoji(EmojiArgument(text))
  {
    assert text[1] == 'e';
    assert text !in HelpWords;
    assert text != "!leaderboard" && text != "!version" && text != "!link" && text != "!delete";
    assert !Text.StartsWith(text, "!random") by {
      assert "!random"[1] == 'r';
    }
    assert !Text.StartsWith(text, "!nick") by {
      assert "!nick"[1] == 'n';
    }
  }

  /** A word starting with `!emoji` and nothing after it clears the
      emoji. */
  lemma EmojiAlone(w: string, link: Option<string>)
    requires Text.StartsWith(w, "!emoji") && forall i :: 0 <= i < |w| ==> !Text.IsSpace(w[i])
    ensures ParseText(w, link) == SetEmoji(None)
  {
    assert Argument(w) == None by {
      assert Text.TrimLeftBy(w, Text.IsSpace) == w;
      Text.TokenOfWord(w, []);
      assert w + [] == w;
    }
    EmojiNotEarlier(w, link);
  }

  /** Only `!nick` and `!emoji` write to the store; every other command
      only answers. */
  lemma OnlyNickAndEmojiWrite(c: BotConfig, env: DmEnv, author: User, cmd: Command)
    requires cmd == Link ==> c.leaderboardLink.Some?
    requires !cmd.Nick? && !cmd.SetEmoji?
    requires Run(c, env, author, cmd).Ok?
    ensures Run(c, env, author, cmd).value.requests == []
  {
  }

  /** The store returns at most five leaders, so the board always fits:
      the empty notice, or one line per leader at its shared position. */
  lemma LeaderboardCommand(c: BotConfig, env: DmEnv, author: User)
    requires |env.leaders| <= 9
    ensures Run(c, env, author, ShowLeaderboard).Ok?
    ensures env.leaders == [] ==> Run(c, env, author, ShowLeaderboard).value == Outcome([Send(Leaderboard.EmptyBoard)], [])
    ensures env.leaders != [] ==> Leaderboard.Lines(env.leaders, Leaderboard.Positions(env.leaders)).Ok?
    ensures env.leaders != [] ==>
      Run(c, env, author, ShowLeaderboard).value == Outcome([Send(Leaderboard.Lines(env.leaders, Leaderboard.Positions(env.leaders)).value)], [])
  {
    Leaderboard.NineLeadersFit(env.leaders);
  }

  /** `!random` says it is all out when no stored motto passes the filter
      (or the one picked has no nominee to read), and otherwise quotes the
      motto picked; it never writes. */
  lemma RandomCommand(c: BotConfig, env: DmEnv, author: User, search: Option<string>)
    requires Run(c, env, author, RandomMotto(search)).Ok?
    ensures var pattern := if search.Some? then env.compile(search.value) else None;
      Storage.Candidates(env.mottos, search, pattern) == Ok([]) ==>
        Run(c, env, author, RandomMotto(search)).value == Outcome([Send(AllOutText)], [])
    ensures var pattern := if search.Some? then env.compile(search.value) else None;
      var picked := Storage.RandomMotto(env.mottos, env.members, search, pattern, env.pick);
      picked == Ok(None) ==> Run(c, env, author, RandomMotto(search)).value == Outcome([Send(AllOutText)], [])
    ensures var pattern := if search.Some? then env.compile(search.value) else None;
      var picked := Storage.RandomMotto(env.mottos, env.members, search, pattern, env.pick);
      picked != Ok(None) ==>
        && picked.Ok? && picked.value.Some? && RandomReply(picked.value.value).Ok?
        && Run(c, env, author, RandomMotto(search)).value == Outcome([Send(RandomReply(picked.value.value).value)], [])
    ensures Run(c, env, author, RandomMotto(search)).value.requests == []
  {
  }
}
