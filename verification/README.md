# MottoBotto, modelled in Dafny

MottoBotto is a Discord bot that collects a server's "mottos". Someone
replies to a memorable message with a trigger such as `!motto`. The bot
checks the nominated message against the server's rules. It refuses a
nomination of one's own message ("fishing") and one already stored
(a "repeat"). Otherwise it stores the nomination as pending in an Airtable
base. Once the message's author approves it with an emoji, the motto's
text is saved. The bot keeps a member table with each member's name,
chosen emoji and nickname option, and a leaderboard of who has most
mottos. Direct messages carry commands: `!help`, `!leaderboard`,
`!version`, `!random`, `!link`, `!nick on|off`, `!delete` (confirmed by a
reaction) and `!emoji`. In servers the bot also answers "chatter": pokes,
apologies, love, hugs, snails, cows and food emoji get reactions.

The model is functional:

- Chat actions (reactions added or removed, replies, messages sent) are
  values of `Chat.Effect`, in order.
- Writes to the store are `Storage.Request` values: insert, update, and
  delete one or many records.
- A table listing the store would return is a `seq<Record>`.
- Python exceptions become `Err` values of `Common.Result`.
- Regular expressions are opaque predicates held in `Settings.Matchers`.
- The clock, the random choice and the store's new record ids are
  parameters.

Modules follow the program's files:

| Module | Files |
|---|---|
| `Models` | `models.py` |
| `Storage` | `motto_storage.py` |
| `Config` | `config.py` |
| `Food` | `food.py` |
| `Reactions` | `reactions.py` |
| `MessageChecks` | `message_checks.py` |
| `Suggestion` | `MottoBotto.py` (on_message, process_suggestion, process_tag) |
| `Approval` | `MottoBotto.py` (on_raw_reaction_add) |
| `Dm` | `MottoBotto.py` (process_dm) |
| `Cleaning` | `MottoBotto.py` (the clean helpers) |
| `RateLimiter` | `MottoBotto.py` (the random-request limiter) |
| `Leaderboard` | `MottoBotto.py` (the `!leaderboard` reply) |

`Settings` holds the typed configuration and the trigger list. `Chat`
holds messages, users and effects. `Text` holds Python's string
operations (`strip`, `lower`, `split`, `replace`, `str(int)`).

## Model

| member | source | states |
|---|---|---|
| Models.Construct | botto/models.py:7-10 | Every declared attribute is set: from the keyword arguments when given, to None otherwise; nothing else is set |
| Models.MottoFromAirtable | botto/models.py:30-47 | A record without a Date column raises KeyError; a decoded Motto keeps the record id and holds the nominee and nominator as keys |
| Models.MottoToAirtable | botto/models.py:49-79 | Serialising succeeds exactly when the date is present or not requested; the record holds exactly the requested columns (all when none are requested), each with the attribute's value |
| Models.MottoRoundTrip | botto/models.py:30-79 | Reading back a fully serialised Motto gives the same Motto, with nominee and nominator replaced by their stored keys |
| Models.DecodeColumns | botto/models.py:30-47 | Any record that holds every Motto column with a Motto's values decodes to that Motto |
| Models.DecodeMotto | botto/models.py:30-47 | A record whose columns read as the Motto's attributes decodes to exactly that Motto |
| Models.FullColumns | botto/models.py:49-79 | A full serialisation holds every Motto column with the attribute's value and keeps the primary key |
| Models.ReadTextColumns | botto/models.py:30-47 | The date, text, message id and bot id columns of a serialised Motto read back as the Motto's values |
| Models.ReadOtherColumns | botto/models.py:30-47 | The nominee, nominator and both approval columns of a serialised Motto read back as the Motto's values |
| Models.MemberFromAirtable | botto/models.py:96-110 | A decoded Member keeps the record id; each present column holds the value the attribute takes, and each absent column gives its default (not support, no nickname option, zero mottos, no names, no emoji) |
| Models.StrItems | botto/models.py:109 | A list column reads as strings exactly when every item is a string, and then item by item |
| Models.ConstructAllGiven | botto/models.py:7-10 | When the keywords name exactly the attributes, the constructor keeps exactly the keywords |
| Models.MemberKeywordsRead | botto/models.py:96-110 | Each keyword `from_airtable` passes (a column or its default) is the value the decoded Member holds for that attribute |
| Models.MemberFromAirtableConstructs | botto/models.py:96-110 | The decoded Member agrees with the generic constructor applied to the keywords `from_airtable` passes: every attribute is given and none falls back to None |
| Models.DisplayName | botto/models.py:112-118 | The shown name is prefixed by the emoji and a space when an emoji is set, and always ends in the nickname (when the option is on and a nickname exists) or the username |
| Models.DisplayNameIgnoresNicknameWhenOff | botto/models.py:112-118 | With the nickname option off, changing the stored nickname never changes the display name, which ends in the username |
| Models.DisplayNameIgnoresUsernameWhenNicknameShown | botto/models.py:112-118 | With the option on and a nickname stored, the username never affects the display name |
| Config.Update | botto/config.py:25-27 | `dict.update` of a section: a dict overrides key by key; None, booleans and numbers raise TypeError; an empty string changes nothing and any other string raises ValueError |
| Config.Pair | botto/config.py:25-27 | An update element is a pair exactly when it is a two-item list with a string key or a two-character string; the list's items become key and value; a dict without exactly two keys raises ValueError |
| Config.UpdatePairs | botto/config.py:25-27 | Updating from a list of pairs never loses a key of the base |
| Config.UpdateOkIndependent | botto/config.py:25-27 | Whether a list of pairs can update a dict does not depend on the dict |
| Config.Parse | botto/config.py:1-29 | Parsing succeeds exactly when every given section can be merged; the result holds exactly the four sections and `should_reply`, each section being the defaults overridden by the input, and `should_reply` defaulting to true |
| Config.SectionMerge | botto/config.py:25-27 | In a merged section every given key keeps its given value, and every default key not given keeps its default |
| Config.ParseFailsOnBadSection | botto/config.py:25-27 | Parsing fails exactly when some given section cannot be merged |
| Config.DefaultsOfEmpty | botto/config.py:3-23 | An empty configuration parses to the defaults: two words, five to 240 characters, the `!motto` trigger, empty channel lists, no reactions, replies on |
| Config.ParseIdempotent | botto/config.py:1-29 | Parsing a parsed configuration gives it back unchanged |
| RateLimiter.Request | botto/MottoBotto.py:264-288 | A random request is granted exactly when both the global and the user's interval have strictly passed; a grant records the time globally and for the user, and a refusal changes nothing |
| RateLimiter.GlobalDenialIgnoresUsers | botto/MottoBotto.py:264-288 | While the global interval has not passed, every user is refused, whatever the per-user history |
| RateLimiter.GrantTouchesOnlyRequester | botto/MottoBotto.py:264-288 | A grant records the time for the requester and leaves every other user's record as it was |
| RateLimiter.GrantsAreSpaced | botto/MottoBotto.py:264-288 | Two consecutive grants are more than the global interval apart, and more than the user interval apart when made to the same user |
| RateLimiter.FirstRequest | botto/MottoBotto.py:264-288 | Before any grant, both intervals count from 1 January 1970, so a request is granted exactly when the clock is past the (longer) user interval after it |
| Settings.Triggers | botto/MottoBotto.py:324-329 | The mention triggers are tried before the configured triggers, and only when triggering on mention is on |
| Settings.FirstTrigger | botto/MottoBotto.py:337-341 | The trigger chosen is the first that matches at the start of the message, and none is chosen exactly when none matches |
| Settings.MentionFirst | botto/MottoBotto.py:324-341 | When triggering on mention is on, a message that a mention trigger matches is always taken as a mention |
| MessageChecks.IsBotto | botto/message_checks.py:4-20 | A message involves the bot exactly when the bot wrote it or it replies to a resolved message the bot wrote; a reply to a deleted message by someone else raises |
| Cleaning.CleanTriggerWith | botto/MottoBotto.py:229-230 | The excerpt neither starts nor ends with a quote mark, and is a piece of the message with the trigger removed and whitespace stripped |
| Cleaning.CleanTriggerAsWritten | botto/MottoBotto.py:229-230 | The excerpt as written neither starts nor ends with a mark of the written set, and is a piece of the stripped text |
| Cleaning.CleanTrigger | botto/MottoBotto.py:229-230 | The excerpt neither starts nor ends with a straight or curly quote, and is a piece of the stripped text |
| Cleaning.EuroStrippedAsWritten | botto/MottoBotto.py:230 | As written, "5€" loses its euro sign; the intended marks keep it |
| Cleaning.QuotedExcerpt | botto/MottoBotto.py:229-230 | An excerpt in straight or curly quotes comes out as the text between them |
| Cleaning.CurlyQuotesKeptAsWritten | botto/MottoBotto.py:229-230 | With the quote set as written, curly quotes around an excerpt stay on it |
| Cleaning.CurlyQuotedExcerptRejectedAsWritten | botto/MottoBotto.py:229-230 | As written, a curly-quoted excerpt is never found in the motto it quotes, while the intended quote set finds it |
| Cleaning.DigitRun | botto/MottoBotto.py:234 | The digits that start a text: a prefix of it, all digits, and followed by no digit |
| Cleaning.ChannelMentions | botto/MottoBotto.py:234 | Every channel id found is a non-empty run of digits |
| Cleaning.NoMentionWithoutBracket | botto/MottoBotto.py:234 | A text without `<` mentions no channel |
| Cleaning.MentionFound | botto/MottoBotto.py:234 | A lone `<#digits>` is found as that one channel id |
| Cleaning.MentionAtStart | botto/MottoBotto.py:234 | A text opening with a channel mention yields that id followed by the mentions in the rest |
| Cleaning.EmojiTable | botto/MottoBotto.py:240 | The server's emoji by name hold each name once, cover every name of the server's list, and hold only emoji from it |
| Cleaning.PutAll | botto/MottoBotto.py:240 | Adding emoji to a table keeps the names unique and adds exactly their names |
| Cleaning.Put | botto/MottoBotto.py:240 | Adding one emoji to a table stores it, keeps the names unique and adds exactly its name |
| Cleaning.CleanMessage | botto/MottoBotto.py:232-245 | A text without channel mentions or server emoji comes out unchanged |
| Cleaning.EmojisAbsent | botto/MottoBotto.py:241-243 | A text that shows none of the server's emoji is left unchanged by the emoji pass |
| Cleaning.ChannelNamed | botto/MottoBotto.py:234-238 | A mention of a known channel becomes `#` and the channel's name |
| Cleaning.UnknownChannelKept | botto/MottoBotto.py:234-238 | A mention of an unknown channel is left as it was |
| Food.ConvertResponse | botto/food.py:134-138 | "echo" and "party" become the special actions, and any other response is a literal emoji |
| Food.ConvertAll | botto/food.py:134-138 | Every response of a category is converted, in order |
| Food.Insert | botto/food.py:141-152 | A dict update: a new key goes last, an existing key keeps its place and takes the new value, and the keys stay unique and equal to the table's domain |
| Food.InsertAll | botto/food.py:141-152 | After adding a category's triggers, the table holds the old keys and the new ones, the new ones with the category's responses; the old keys keep their order |
| Food.Build | botto/food.py:141-152 | The lookup built from the categories lists each key once, and its keys are exactly the table's domain |
| Food.BuildLastWins | botto/food.py:141-152 | A trigger listed by several categories answers with the converted responses of the last of them |
| Food.BuildKeys | botto/food.py:141-152 | A string is a key exactly when some category lists it as a trigger |
| Food.FoodCharsHoldsKeys | botto/food.py:152 | The character string of all keys holds each key, at its offset |
| Food.LookupIsWinner | botto/food.py:141-152 | The lookup answers a trigger with the converted responses of the last category listing it, and an unlisted string with nothing |
| Food.ButterIsWeird | botto/food.py:57-106 | Butter, listed by both the dairy and the weird-food categories, is answered with the puzzled face of the later one |
| Reactions.FavoriteBand | botto/reactions.py:166-169 | One reaction per configured letter, in order |
| Reactions.RejectionsKeepMarkers | botto/reactions.py:94-112 | Fishing, invalid, skynet and no-reply outcomes add their markers and leave every other marker, the pending one included |
| Reactions.RepliesFollowSwitch | botto/reactions.py:14-142 | Skynet, no-reply and stored outcomes reply exactly when replies are on; fishing, invalid, duplicate and deleted never reply |
| Reactions.DuplicateAndDeletedClearPending | botto/reactions.py:115-125 | A duplicate or deleted outcome adds its markers and always takes the pending marker off |
| Reactions.StoredMarkers | botto/reactions.py:128-142 | An accepted motto loses the pending marker and gains the success marker and the author's special reaction, if any |
| Reactions.FoodOnlyAdds | botto/reactions.py:72-87 | A food reaction never removes a marker |
| Reactions.FoodAddsNamed | botto/reactions.py:72-87 | Every emoji a food's responses name ends up on the message |
| Reactions.FoodEffectCount | botto/reactions.py:72-87 | Each echo or literal adds one reaction and each party five |
| Reactions.ButterReaction | botto/reactions.py:72-87 | Butter gets exactly the puzzled face from the default food table |
| Reactions.LiteralReaction | botto/reactions.py:72-87 | A food answered by one literal emoji gets exactly that emoji |
| Storage.RemoveNonWord | botto/motto_storage.py:382 | Removing the non-word characters keeps only word characters and spaces and never lengthens the text |
| Storage.Collapse | botto/motto_storage.py:382 | Collapsing whitespace leaves no two adjacent whitespace characters, turns a leading run into one space, keeps any other first character, introduces no character but the space, and keeps the text empty exactly when it was |
| Storage.Normalize | botto/motto_storage.py:382 | The compared text holds only word characters and spaces, and no two whitespace characters in a row |
| Storage.NormalizeIgnoresCase | botto/motto_storage.py:380-391 | The repeat check does not depend on letter case |
| Storage.NormalizeIgnoresPadding | botto/motto_storage.py:380-391 | The repeat check does not depend on surrounding whitespace |
| Storage.NormalizeIgnoresTrailingPunctuation | botto/motto_storage.py:380-391 | A trailing punctuation mark does not change the compared text |
| Storage.NormalizeNotIdempotent | botto/motto_storage.py:382 | Normalising is not idempotent: "! a" normalises to " a", which normalises to "a" |
| Storage.MatchingMottos | botto/motto_storage.py:380-391 | A record matches exactly when its normalised text equals the message's, or when a non-zero message id is given and equals the record's |
| Storage.IsRepeat | botto/motto_storage.py:380-391 | The check succeeds exactly when every matching record decodes, and then reports a repeat exactly when some record matches |
| Storage.RepeatOfStoredText | botto/motto_storage.py:380-391 | A message whose normalised text equals a stored motto's is a repeat |
| Storage.GetMotto | botto/motto_storage.py:393-400 | None exactly when no record has the message id; otherwise the decoding of the first record with that id: its Motto, or the exception decoding raised |
| Storage.GetSavedMotto | botto/motto_storage.py:393-400 | Looking up the message of a motto saved in full, with no earlier record from that message, gives that motto back |
| Storage.Batches | botto/motto_storage.py:313-321 | The ids are cut into ceiling(n/10) batches of at most ten, all full but the last, which together give back the ids in order |
| Storage.DeleteRequests | botto/motto_storage.py:206-233 | One request per batch on the given table: a one-id batch deletes that record, a larger one lists its ids |
| Storage.DeleteRequestsCoverIds | botto/motto_storage.py:206-233 | The deletes together remove exactly the given ids, in order |
| Storage.DeleteSingle | botto/motto_storage.py:427-428 | Deleting a motto by key is one delete of that record |
| Storage.SaveMotto | botto/motto_storage.py:361-378 | A save is an update of the record when the Motto has a key and an insert otherwise, always on the Motto table; it fails exactly when the date is written but missing |
| Storage.SavedFields | botto/motto_storage.py:361-378 | A save writes exactly the requested columns, or the default ones when none are requested, with the Motto's values |
| Storage.SavedDefault | botto/motto_storage.py:361-378 | A default save writes the text, the message id, the date and the approval |
| Storage.DefaultLeavesAuthorApproval | botto/motto_storage.py:361-378 | A default save never writes the author's approval |
| Storage.FindMember | botto/motto_storage.py:288-295 | The member found has the user's chat id, and none is found exactly when no record has it |
| Storage.GetOrAddMember | botto/motto_storage.py:430-445 | A stored member is returned without writes, and it is the Member decoded from the record found (failing exactly when that record does not decode); otherwise one insert of the new member with the user's name and the nickname option off |
| Storage.UpdateMember | botto/motto_storage.py:486-524 | A member update needs the member's key and writes the fields to that record |
| Storage.NameChanges | botto/motto_storage.py:486-509 | The username is written exactly when it changed; with the nickname option on, the nickname is written when the shown name changed and differs from the username; with it off, a stored nickname is cleared |
| Storage.UpdateName | botto/motto_storage.py:486-509 | Nothing is written exactly when nothing changed; a change for a member without a key raises |
| Storage.UpdateNameSettles | botto/motto_storage.py:486-509 | A second update right after the first finds nothing to change, except when the option is on and the shown name equals the old username while the username changed |
| Storage.SetNickOption | botto/motto_storage.py:471-484 | The option is written to the member's record; turning it off also clears the nickname, and nothing else is written |
| Storage.NickOffShowsUsername | botto/motto_storage.py:471-484 | After `!nick off` the display name shows the username |
| Storage.UpdateEmoji | botto/motto_storage.py:511-524 | Nothing is written exactly when the emoji is unchanged; otherwise the member's emoji column is written, and a member without a key raises |
| Storage.ClearingUnsetEmojiWrites | botto/motto_storage.py:511-524 | Clearing an emoji that was never set still writes an empty emoji |
| Storage.RemoveAllDataIn | botto/motto_storage.py:458-469 | A zero id raises, and a user without a member record has nothing deleted |
| Storage.RemoveAllDataAsWritten | botto/motto_storage.py:323-333 | The erasure as written: a zero id raises, and a user without a member record has nothing deleted |
| Storage.RemoveAllData | botto/motto_storage.py:458-469 | The corrected erasure: a zero id raises, a user without a member record has nothing deleted, and every request it makes is a delete |
| Storage.RemoveAllDataMissesMemberTable | botto/motto_storage.py:323-333 | As written, every delete of the erasure goes to the Motto table, the member's record included |
| Storage.RemoveAllDataDeletesMember | botto/motto_storage.py:458-469 | The erasure deletes the member's mottos in batches and then the member's own record from the Member table |
| Storage.ExpiredRecords | botto/motto_storage.py:545-575 | The sweep succeeds exactly when every record can be judged (an unapproved record's date is readable, and an expired one has a message id), and then selects exactly the expired records |
| Storage.RecordIds | botto/motto_storage.py:545-575 | Each selected record is decoded and its key taken, in order; any record that fails to decode raises |
| Storage.RemoveUnapproved | botto/motto_storage.py:545-575 | The keys removed are exactly those of unapproved records dated before the safe period, and nothing is removed when every motto has text |
| Storage.ExpiredIds | botto/motto_storage.py:545-575 | The keys taken from the selected records are exactly the keys of the expired records |
| Storage.RemoveUnapprovedRequests | botto/motto_storage.py:545-575 | The sweep's deletes all go to the Motto table and remove exactly the expired keys |
| Storage.ExpiredRecordDeleted | botto/motto_storage.py:545-575 | A listed record with no text, dated before the cutoff, is among the sweep's deletions whenever the sweep succeeds |
| Storage.Inserted | botto/motto_storage.py:545-548 | A listing taken after a batch of writes holds every record the batch inserts into the table, under the id the store assigns |
| Storage.Candidates | botto/motto_storage.py:402-425 | The candidates are exactly the records that pass the text or pattern filter |
| Storage.RandomMotto | botto/motto_storage.py:402-425 | None when there is no candidate, and None otherwise only when the chosen record has an empty Member list (the IndexError is caught); a failing filter raises; a motto returned is a candidate's, with its nominee linked |
| Storage.EmptyNomineeListGivesNothing | botto/motto_storage.py:411-423 | A stored motto whose Member list is empty reads as no motto, not as an error |
| Storage.MemberByKey | botto/motto_storage.py:447-456 | An empty key raises TypeError; a key some member record has gives the Member decoded from such a record; any other key is refused by the store |
| Storage.PatternTakesPrecedence | botto/motto_storage.py:402-425 | When a valid pattern is given, the plain search text is ignored |
| Storage.SearchIgnoresCase | botto/motto_storage.py:402-425 | The plain search does not depend on its letter case |
| Dm.Argument | botto/MottoBotto.py:560-616 | A command's argument is never empty and never starts with whitespace |
| Dm.ParseText | botto/MottoBotto.py:432-618 | `!nick`, `!emoji` and `!random` are recognised only from a text with that prefix, and `!link` only when a link is configured |
| Dm.Parse | botto/MottoBotto.py:442-618 | The command is read from the lower-cased, stripped text: `!nick`, `!emoji` and `!random` only from a text with that prefix, `!link` only when a link is configured |
| Dm.ParseIgnoresCase | botto/MottoBotto.py:442 | Commands do not depend on letter case |
| Dm.ParseIgnoresPadding | botto/MottoBotto.py:442 | Commands do not depend on surrounding whitespace |
| Dm.EmojiChoice | botto/MottoBotto.py:593-616 | No argument clears the emoji, a known emoji is set, and anything else is refused |
| Dm.NickCommand | botto/MottoBotto.py:560-582 | `!nick on` ends by writing the option, `!nick off` by writing it and clearing the nickname, and any other argument only explains the usage |
| Dm.EmojiCommand | botto/MottoBotto.py:593-616 | A refused emoji only gets the invalid reaction; otherwise the valid reaction, and every member write sets the emoji column to the choice (empty when clearing) |
| Dm.OwnMessagesIgnored | botto/MottoBotto.py:434-435 | The bot does nothing about its own messages |
| Dm.Handle | botto/MottoBotto.py:432-618 | The bot's own messages do nothing; any other direct message writes only when it is a `!nick` or `!emoji` command |
| Dm.ArgumentAfterWord | botto/MottoBotto.py:560-616 | The argument is everything after the command word and a space |
| Dm.NickWithOption | botto/MottoBotto.py:560-582 | A word starting with `!nick` followed by an argument is the nick command with that argument |
| Dm.NickNotEarlier | botto/MottoBotto.py:444-560 | A text starting with `!nick` is taken as the nick command, not as any command tried before it |
| Dm.EmojiNotEarlier | botto/MottoBotto.py:444-593 | A text starting with `!emoji` is taken as the emoji command |
| Dm.EmojiAlone | botto/MottoBotto.py:593-616 | `!emoji` without an argument clears the emoji |
| Dm.OnlyNickAndEmojiWrite | botto/MottoBotto.py:432-618 | Only `!nick` and `!emoji` write to the store |
| Dm.LeaderboardCommand | botto/MottoBotto.py:485-509 | With at most nine leaders, `!leaderboard` always answers: the empty notice, or one line per leader |
| Dm.RandomCommand | botto/MottoBotto.py:533-554 | `!random` says it is all out when no motto passes the filter or the picked one has no nominee, and otherwise quotes the picked motto with its nominee's name; it never writes |
| Leaderboard.RunStart | botto/MottoBotto.py:494-507 | A leader's run of equal counts starts at the returned index and no earlier |
| Leaderboard.Ranks | botto/MottoBotto.py:494-507 | Each leader's position is the first position of its run of equal counts |
| Leaderboard.RankCountsHigher | botto/MottoBotto.py:494-507 | On a board sorted by count, a position is one more than the number of leaders with a higher count |
| Leaderboard.LeaderLine | botto/MottoBotto.py:500-507 | A line exists exactly for positions up to nine; it starts with the position's emoji and a mention, and ends with "motto" or "mottos" by count |
| Leaderboard.Lines | botto/MottoBotto.py:494-509 | The board can be written exactly when every position is at most nine |
| Leaderboard.Board | botto/MottoBotto.py:485-509 | No leaders give the empty notice; otherwise the lines with the shared positions |
| Leaderboard.NineLeadersFit | botto/MottoBotto.py:485-509 | A board of at most nine leaders can always be written |
| Suggestion.WatchedChannels | botto/MottoBotto.py:215-224 | A channel is watched exactly when the include list is empty or names it, and the exclude list does not name it |
| Suggestion.OnMessage | botto/MottoBotto.py:209-227 | A message in an unwatched channel does nothing |
| Suggestion.SweptMottos | botto/MottoBotto.py:226-227 | The sweep's listing holds every stored motto and the motto record this message has just inserted |
| Suggestion.ExpiredNominationSwept | botto/MottoBotto.py:226-227 | With the sweep drawn, a nomination of a message older than the safe period is deleted in the same turn that stores it, since its record has no text yet |
| Suggestion.SnailEmojiNeverMatchesAsWritten | botto/MottoBotto.py:355 | As written, only "i am snail" gets the snail, never the emoji phrase |
| Suggestion.SnailEmojiMatches | botto/MottoBotto.py:355 | With the intended phrase, "I am" and the snail emoji gets the snail |
| Suggestion.SnailIgnoresPadding | botto/MottoBotto.py:355 | The snail check does not depend on surrounding whitespace |
| Suggestion.Chatter | botto/MottoBotto.py:343-365 | A message without a trigger only ever gets reactions |
| Suggestion.Banter | botto/MottoBotto.py:353-365 | "I am" and the snail (or "I am snail") gets the snail; without band, snail or cow, only the food answer remains |
| Suggestion.Quiet | botto/reactions.py:42-69 | An outcome without writes fails with IndexError exactly when one of its random reactions has nothing to pick from |
| Suggestion.ProcessTag | botto/MottoBotto.py:290-322 | A tagged message either leaves the limiter alone or records a grant at the current time, and never writes to the store |
| Suggestion.RandomAnswer | botto/MottoBotto.py:314-320 | A random answer never writes to the store |
| Suggestion.ProcessSuggestion | botto/MottoBotto.py:331-430 | Only a tagged message that replies to nothing can touch the rate limiter, and only a reply starting with a trigger can write |
| Suggestion.TagBeforeTrigger | botto/MottoBotto.py:333-335 | A tagged message that replies to nothing goes to the tag handler even when it starts with a trigger, and never writes |
| Suggestion.Classify | botto/MottoBotto.py:337-376 | A write needs a trigger at the start, a message neither from nor replying to the bot, and a resolved reference; the outcome is then that nomination's |
| Suggestion.Nominate | botto/MottoBotto.py:376-430 | A write needs a valid motto from someone else, an excerpt that is empty or found in it, and no stored repeat; it then adds the pending marker |
| Suggestion.StoreUnlessRepeat | botto/MottoBotto.py:395-430 | A repeat writes nothing; a write happens only when no stored motto matches |
| Suggestion.Store | botto/MottoBotto.py:398-426 | A stored nomination adds the pending marker and writes something |
| Suggestion.ChatterNeverStores | botto/MottoBotto.py:337-365 | A message without a trigger writes nothing and only reacts; it fails exactly when a random reaction it earns has no choices |
| Suggestion.BotTriggerRefused | botto/MottoBotto.py:367-369 | A trigger from the bot, or replying to it, gets the skynet reactions and writes nothing |
| Suggestion.UnrepliedTriggerRefused | botto/MottoBotto.py:371-373 | A trigger that replies to nothing gets the no-reply reactions and writes nothing |
| Suggestion.InvalidMottoRefused | botto/MottoBotto.py:376-378 | A motto breaking the rules gets the invalid reactions and writes nothing |
| Suggestion.NominatedNominationInvalid | botto/MottoBotto.py:253-262 | A message that itself starts with a new-motto trigger is never valid, so nominating it is refused as invalid |
| Suggestion.ExcerptMissingRefused | botto/MottoBotto.py:387-393 | An excerpt not found in the motto gets the no-reply reactions and writes nothing |
| Suggestion.FishingNeverStores | botto/MottoBotto.py:381-383 | Nominating one's own valid message only gets the fishing reactions |
| Suggestion.RepeatNeverStores | botto/MottoBotto.py:387-397 | A valid nomination of a message already stored, by text or id, only gets the duplicate reactions |
| Suggestion.RepeatRefused | botto/MottoBotto.py:395-397 | A message matching a stored motto is refused as a duplicate |
| Suggestion.StoredNomination | botto/MottoBotto.py:400-426 | A stored nomination adds the pending marker and inserts the new motto |
| Suggestion.NewMottoSaved | botto/MottoBotto.py:409-417 | The new motto is inserted on the Motto table with empty text and the nominated message's id |
| Suggestion.NewMottoApproval | botto/MottoBotto.py:409-417 | The new motto carries the message's time and is approved unless a human must moderate, with no author approval yet |
| Approval.OnReaction | botto/MottoBotto.py:90-207 | Only the approval and confirm-delete emoji do anything, and only on a message carrying the bot's pending marker |
| Approval.Approve | botto/MottoBotto.py:107-171 | An approval acts only on a pending message, and writes only for a resolved reference by the reacting user to a stored motto, with a trigger and an excerpt found in the motto |
| Approval.ApprovedText | botto/MottoBotto.py:144-154 | An approval has a text exactly when the trigger's excerpt is empty or found in the motto; it is the cleaned excerpt, or the whole cleaned motto when nothing was quoted |
| Approval.PlainApprovedText | botto/MottoBotto.py:144-154 | For text without mentions or server emoji, the approved text is the quoted excerpt, or the motto itself when nothing was quoted |
| Approval.Accept | botto/MottoBotto.py:144-171 | An excerpt not found in the motto does nothing; a write needs an approved text |
| Approval.SaveApproval | botto/MottoBotto.py:161-171 | A saved approval needs a known reactor; it places the stored reactions and its first write is the motto's update |
| Approval.ConfirmDelete | botto/MottoBotto.py:173-207 | A confirmation acts only on a pending message |
| Approval.OnlyAuthorApproves | botto/MottoBotto.py:107-171 | Only the author of the nominated message changes the store by approving, and only on a pending message |
| Approval.ApprovalNeedsStoredNomination | botto/MottoBotto.py:107-154 | An approval writes only for a stored motto, a nomination starting with a trigger, and an excerpt that is empty or found in the motto |
| Approval.ErasureNeedsConfirmation | botto/MottoBotto.py:173-207 | An erasure happens only on the bot's pending reply, in a direct message, to a `!delete` request |
| Approval.ConfirmedErasure | botto/MottoBotto.py:173-207 | A confirmed `!delete` runs the erasure and reacts |
| Approval.ErasureDeletesMember | botto/MottoBotto.py:196-206 | A confirmed erasure deletes the member's mottos and then the member's record |
| Approval.ErasedMarkers | botto/MottoBotto.py:196-206 | After an erasure the confirmation marker is on and the pending one is off |
| Approval.ApprovalUpdate | botto/MottoBotto.py:161-164 | An approval writes exactly the text and the author's approval to the motto's record |
| Approval.ApprovalSavedFirst | botto/MottoBotto.py:161-169 | The approval's first write is that update, and the stored reactions follow |
| Approval.DuplicateWithdrawn | botto/MottoBotto.py:156-159 | Approving a text that is already stored deletes the pending motto and marks the duplicate |
| Approval.QuotedApproval | botto/MottoBotto.py:144-154 | A quoted excerpt found in the motto is approved as the excerpt, cleaned |
| Approval.NothingWithoutPending | botto/MottoBotto.py:109-115 | Without the pending marker a reaction does nothing |

## Left out

- Network and Discord I/O, HTTP requests, pagination, sleeps and the
  store's semaphore: the store is a listing passed in, and writes are
  returned requests.
- Logging, `channel.typing()` and `trigger_typing`: they have no effect
  on the outcome.
- `asyncio.gather` runs the name updates concurrently; the model applies
  them in a fixed order.
- An exception part-way through a handler: the model drops the effects
  already done and returns the error.
- Regular-expression semantics: each pattern is an opaque predicate, and
  the wiring in `compile_regexes` is not part of this model.
- The emoji library's table of known emoji: it is a parameter.
- The git lookup behind `!version` and the help text: both are
  parameters.
- Date parsing: dates are integer timestamps, and a date stored as text
  is one the parser rejects.
- `random.choice`: the pick is a parameter (a choice from an empty list
  raises IndexError, as `Suggestion.Quiet` states). The sweep's draw,
  `random.random() < 0.1`, is the `sweep` flag.
- The clock: `now` is read once per event.
- Fractional minutes in the rate limits: the limits are whole minutes.
- `get_leaders`' sorting and `get_support_users`: the leaders are a
  parameter, sorted by the store.
- Text.Lower: lower-cases ASCII, Latin-1 and two other capitals, not all
  of Unicode.
- Storage.Normalize: Airtable's `TRIM`, `LOWER` and `REGEX_REPLACE` are
  modelled with ASCII whitespace, ASCII word characters and `Text.Lower`.
- The configuration is typed (`Settings.BotConfig`); an empty string read
  back from a store column is `None`.
- A food key of more than one character can never match, since the food
  regex is a character class; the model keeps such keys in the table.
- Channel mentions use ASCII digits only.
- The first `wave` definition in `reactions.py` is overridden by the
  second and is not modelled.
- The `add_reaction` helper is modelled as the effect it produces.
- Approval.OnReaction: the contract states only when it acts; what it
  does is stated by the lemmas about it.
- Storage.RemoveAllDataIn: the contract covers the zero id and the
  missing member; the full erasure is stated by
  `Storage.RemoveAllDataDeletesMember`.
- Models.MemberFromAirtable: a column holding a value of the wrong type
  (a number for a name, say) raises TypeError in the model; the source's
  `fields.get` accepts any value, and the wrong type surfaces only later,
  if at all.
- Models.MottoFromAirtable: raises TypeError on a wrong-typed column too,
  for the same reason; only the Date column is read strictly by the source.
- Models.FieldStr, Models.FieldFlag, Models.FieldBoolOr, Models.FieldIntOr
  and Models.FieldStrList: each raises TypeError on a wrong-typed column,
  for the same reason.
- Suggestion.ProcessTag: the contract states the rate limiter's change and
  that nothing is written, not which reply is given.
- Suggestion.OnMessage: the contract states only the channel filter;
  the same-turn sweep of a fresh nomination is stated by
  `Suggestion.ExpiredNominationSwept`.
- Config.Pair: refuses two kinds of pair that Python's `dict.update`
  accepts. A list pair whose key is `null`, a boolean or a number gets
  TypeError, because the model's dicts have string keys only; Python
  takes the key as it is, with `1` and `True` the same key. A dict of
  exactly two keys gets TypeError, because the model's dicts are
  unordered and Python takes its first key as the key and its second as
  the value.
- Config.UpdatePairs: fails on those pairs, as `Config.Pair` does.
- Config.Parse: fails on a section holding such a pair, where Python
  merges it.
- Config.ParseFailsOnBadSection: calls such a section unmergeable, where
  Python merges it.

The handlers below use the corrected definitions of the three findings
(see "## Findings"), so on the affected inputs they state the intended
behaviour, not the source's:

- Approval.ConfirmDelete: erases with `Storage.RemoveAllData`, which
  deletes the member's record from the Member table. As written the
  record's id goes to the Motto table (motto_storage.py:333); the store
  refuses it, `_delete` raises on the non-200 answer
  (motto_storage.py:226-228), and the confirmation reactions never come.
  `Storage.RemoveAllDataAsWritten` models that erasure.
- Approval.ConfirmedErasure: states the corrected erasure, as above.
- Approval.ErasureDeletesMember: states the corrected erasure, as above.
- Approval.ErasedMarkers: the markers follow the corrected erasure; as
  written the erasure raises first.
- Approval.ApprovedText: strips straight and curly quotes from the
  excerpt. As written (MottoBotto.py:230) the curly quotes stay on, and
  U+00E2, U+20AC and U+0153 are stripped from either end, so "5€" becomes
  "5" (`Cleaning.EuroStrippedAsWritten`).
- Approval.QuotedApproval: states the corrected quote stripping, as above.
- Approval.PlainApprovedText: its excerpt is read with the corrected
  quote stripping, as above.
- Approval.Approve: reads the excerpt with the corrected quote stripping.
- Approval.Accept: reads the excerpt with the corrected quote stripping.
- Approval.ApprovalNeedsStoredNomination: states the excerpt test with
  the corrected quote stripping.
- Suggestion.Nominate: reads the excerpt with the corrected quote
  stripping. As written, `!motto “great”` replying to "a great day" gets
  the no-reply reactions; the model stores the nomination.
- Suggestion.ExcerptMissingRefused: states the excerpt test with the
  corrected quote stripping.
- Suggestion.RepeatNeverStores: its excerpt condition uses the corrected
  quote stripping.
- Suggestion.Classify: a nomination follows `Suggestion.Nominate`, as
  above.
- Suggestion.ProcessSuggestion: a nomination follows
  `Suggestion.Nominate`, as above.
- Suggestion.Banter: "I am" with the snail emoji gets the snail. As
  written (MottoBotto.py:355) only "I am snail" does.
- Suggestion.Chatter: the snail follows `Suggestion.Banter`, as above.
- Suggestion.ChatterNeverStores: the effects follow `Suggestion.Banter`,
  as above.

## Findings

| source | as written | input that shows it | evidently intended | confidence | as-written member | corrected member |
|---|---|---|---|---|---|---|
| botto/motto_storage.py:323-333 | `_delete_members` deletes the member's record from the Motto table | any `!delete` by a member with a record: the member's id is sent to the Motto table | the member's record is deleted from the Member table | high, not executed | Storage.RemoveAllDataMissesMemberTable | Storage.RemoveAllDataDeletesMember |
| botto/MottoBotto.py:355 | the snail phrase holds the emoji's UTF-8 bytes read as cp1252, with a capital that `lower()` never yields | "i am 🐌" | "i am" followed by the snail emoji gets the snail | high, not executed | Suggestion.SnailEmojiNeverMatchesAsWritten | Suggestion.SnailEmojiMatches |
| botto/MottoBotto.py:230 | the quote marks to strip hold the curly quotes' bytes read as cp1252 | an excerpt in curly quotes, “text”: the quotes stay on, so it is never found in the motto | straight and curly quotes are stripped | high, not executed | Cleaning.CurlyQuotedExcerptRejectedAsWritten | Cleaning.QuotedExcerpt |
