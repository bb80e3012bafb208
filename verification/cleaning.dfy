/** How the bot turns message text into motto text: the excerpt left once
    the trigger is removed, and a motto with its channel mentions and
    server emoji spelled out by name. */
module Cleaning {
  import opened Common
  import Text
  import opened Chat
  import opened Settings

  // ---------------------------------------------------------------------
  // The excerpt after the trigger.

  /** The marks stripped from an excerpt as the source spells them: the
      straight quotes and three characters of the curly quotes' UTF-8 bytes
      read as Windows-1252. */
  const QuoteMarksAsWritten: set<char> := {'\'', '"', '\U{00E2}', '\U{20AC}', '\U{0153}'}

  /** The marks evidently meant: straight and curly quotes. */
  const QuoteMarks: set<char> := {'\'', '"', '\U{201C}', '\U{201D}'}

  /** The trigger message with every match of the trigger removed, then
      stripped of whitespace and then of `marks`. */
  function CleanTriggerWith(t: Trigger, text: string, marks: set<char>): (r: string)
    ensures r == [] || (r[0] !in marks && r[|r| - 1] !in marks)
    ensures Text.Contains(Text.Strip(t.removeAll(text)), r)
  {
    var u := Text.Strip(t.removeAll(text));
    Text.StripCharsPiece(u, marks);
    Text.StripChars(u, marks)
  }

  /** `clean_trigger_message` as written. */
  function CleanTriggerAsWritten(t: Trigger, text: string): (r: string)
    ensures r == [] || (r[0] !in QuoteMarksAsWritten && r[|r| - 1] !in QuoteMarksAsWritten)
    ensures Text.Contains(Text.Strip(t.removeAll(text)), r)
  {
    CleanTriggerWith(t, text, QuoteMarksAsWritten)
  }

  /** `clean_trigger_message` with the quote marks it is meant to strip. */
  function CleanTrigger(t: Trigger, text: string): (r: string)
    ensures r == [] || (r[0] !in QuoteMarks && r[|r| - 1] !in QuoteMarks)
    ensures Text.Contains(Text.Strip(t.removeAll(text)), r)
  {
    CleanTriggerWith(t, text, QuoteMarks)
  }

  /** An excerpt in straight or curly quotes comes out without them. */
  lemma QuotedExcerpt(t: Trigger, text: string, open: char, e: string, close: char)
    requires Text.Strip(t.removeAll(text)) == [open] + e + [close]
    requires open in QuoteMarks && close in QuoteMarks
    requires e == [] || (e[0] !in QuoteMarks && e[|e| - 1] !in QuoteMarks)
    ensures CleanTrigger(t, text) == e
  {
    Text.StripCharsPadded([open], e, [close], QuoteMarks);
  }

  /** As written, an excerpt in curly quotes keeps them... */
  lemma CurlyQuotesKeptAsWritten(t: Trigger, text: string, e: string)
    requires Text.Strip(t.removeAll(text)) == "\U{201C}" + e + "\U{201D}"
    ensures CleanTriggerAsWritten(t, text) == "\U{201C}" + e + "\U{201D}"
  {
    var s := "\U{201C}" + e + "\U{201D}";
    assert s[0] == '\U{201C}' && s[|s| - 1] == '\U{201D}';
    Text.StripCharsKeeps(s, QuoteMarksAsWritten);
  }

  /** ...so the quoted excerpt is never found in the motto it quotes, while
      the evidently intended marks give back the excerpt itself. */
  lemma CurlyQuotedExcerptRejectedAsWritten(t: Trigger, text: string, e: string)
    requires Text.Strip(t.removeAll(text)) == "\U{201C}" + e + "\U{201D}"
    requires e == [] || (e[0] !in QuoteMarks && e[|e| - 1] !in QuoteMarks)
    ensures CleanTriggerAsWritten(t, text) != []
    ensures !Text.Contains(e, CleanTriggerAsWritten(t, text))
    ensures CleanTrigger(t, text) == e
  {
    CurlyQuotesKeptAsWritten(t, text, e);
    if Text.Contains(e, CleanTriggerAsWritten(t, text)) {
      Text.ContainsNoLonger(e, CleanTriggerAsWritten(t, text));
    }
    QuotedExcerpt(t, text, '\U{201C}', e, '\U{201D}');
  }

  /** As written, the stripped set also takes a euro sign off the end of an
      excerpt ("5€" gives "5"); the intended marks leave it. */
  lemma EuroStrippedAsWritten(t: Trigger, text: string)
    requires Text.Strip(t.removeAll(text)) == "5\U{20AC}"
    ensures CleanTriggerAsWritten(t, text) == "5"
    ensures CleanTrigger(t, text) == "5\U{20AC}"
  {
    var u := Text.Strip(t.removeAll(text));
    var five: string := "5";
    var euro: string := "\U{20AC}";
    assert u == [] + five + euro;
    assert five[0] == '5' && euro[0] == '\U{20AC}';
    Text.StripCharsPadded([], five, euro, QuoteMarksAsWritten);
    assert u[0] == '5' && u[|u| - 1] == '\U{20AC}';
    Text.StripCharsKeeps(u, QuoteMarks);
  }

  // ---------------------------------------------------------------------
  // Channel mentions.

  /** The longest prefix of ASCII digits. */
  function DigitRun(s: string): (r: string)
    ensures |r| <= |s| && r == s[..|r|]
    ensures forall i :: 0 <= i < |r| ==> '0' <= r[i] <= '9'
    ensures |r| == |s| || !('0' <= s[|r|] <= '9')
  {
    if s == [] || !('0' <= s[0] <= '9') then [] else [s[0]] + DigitRun(s[1..])
  }

  /** The ids of the `<#digits>` channel mentions, left to right, as the
      pattern finds them. */
  function ChannelMentions(s: string): (ids: seq<string>)
    ensures forall i :: 0 <= i < |ids| ==> ids[i] != [] && forall j :: 0 <= j < |ids[i]| ==> '0' <= ids[i][j] <= '9'
    decreases |s|
  {
    if |s| < 2 then []
    else if s[0] == '<' && s[1] == '#' then
      var d := DigitRun(s[2..]);
      if d != [] && 2 + |d| < |s| && s[2 + |d|] == '>' then [d] + ChannelMentions(s[3 + |d|..])
      else ChannelMentions(s[1..])
    else ChannelMentions(s[1..])
  }

  /** Text without `<` mentions no channel. */
  lemma {:induction false} NoMentionWithoutBracket(s: string)
    requires forall i :: 0 <= i < |s| ==> s[i] != '<'
    ensures ChannelMentions(s) == []
    decreases |s|
  {
    if |s| >= 2 {
      NoMentionWithoutBracket(s[1..]);
    }
  }

  /** A mention alone is found, with its id. */
  lemma MentionFound(d: string)
    requires d != [] && forall j :: 0 <= j < |d| ==> '0' <= d[j] <= '9'
    ensures ChannelMentions("<#" + d + ">") == [d]
  {
    var s := "<#" + d + ">";
    var tail := d + ">";
    assert s == "<#" + tail;
    DigitRunStops(d, ">");
    MentionAtStart(s, d);
    assert |s| == 3 + |d|;
  }

  /** A text opening with a complete mention yields its id first. */
  lemma MentionAtStart(s: string, d: string)
    requires |s| >= 2 && s[..2] == "<#"
    requires DigitRun(s[2..]) == d && d != [] && 2 + |d| < |s| && s[2 + |d|] == '>'
    ensures ChannelMentions(s) == [d] + ChannelMentions(s[3 + |d|..])
  {
  }

  /** The digit run of digits followed by a non-digit is those digits. */
  lemma {:induction false} DigitRunStops(d: string, rest: string)
    requires forall j :: 0 <= j < |d| ==> '0' <= d[j] <= '9'
    requires rest != [] && !('0' <= rest[0] <= '9')
    ensures DigitRun(d + rest) == d
  {
    if d != [] {
      assert (d + rest)[1..] == d[1..] + rest;
      DigitRunStops(d[1..], rest);
    } else {
      assert d + rest == rest;
    }
  }

  /** Each mention of a channel the client can see replaced by `#name`. */
  function ReplaceChannels(s: string, ids: seq<string>, channels: map<nat, string>): string
    requires forall i :: 0 <= i < |ids| ==> forall j :: 0 <= j < |ids[i]| ==> '0' <= ids[i][j] <= '9'
    decreases |ids|
  {
    if ids == [] then s
    else
      var id := Text.ParseDigits(ids[0]);
      var next := if id in channels then Text.Replace(s, "<#" + ids[0] + ">", "#" + channels[id]) else s;
      ReplaceChannels(next, ids[1..], channels)
  }

  // ---------------------------------------------------------------------
  // Server emoji.

  /** The names of a list of server emoji. */
  function Names(d: seq<ServerEmoji>): set<string> {
    set x | x in d :: x.name
  }

  predicate DistinctNames(d: seq<ServerEmoji>) {
    forall i, j :: 0 <= i < j < |d| ==> d[i].name != d[j].name
  }

  /** The server's emoji by name, as a dictionary built from the list would
      hold them: the first position of each name, with the last emoji of
      that name. */
  function EmojiTable(es: seq<ServerEmoji>): (r: seq<ServerEmoji>)
    ensures forall x :: x in r ==> x in es
    ensures DistinctNames(r)
    ensures Names(r) == Names(es)
  {
    PutAll([], es)
  }

  /** Assigns each emoji under its name in turn. */
  function PutAll(d: seq<ServerEmoji>, es: seq<ServerEmoji>): (r: seq<ServerEmoji>)
    requires DistinctNames(d)
    ensures forall x :: x in r ==> x in d || x in es
    ensures DistinctNames(r)
    ensures Names(r) == Names(d) + Names(es)
    decreases |es|
  {
    if es == [] then d
    else
      var r := PutAll(Put(d, es[0]), es[1..]);
      assert Names(es) == {es[0].name} + Names(es[1..]) by {
        assert es == [es[0]] + es[1..];
        NamesCons(es[0], es[1..]);
      }
      r
  }

  /** Dictionary assignment: replaces the entry of the same name in place,
      or appends. */
  function Put(d: seq<ServerEmoji>, e: ServerEmoji): (r: seq<ServerEmoji>)
    requires DistinctNames(d)
    ensures e in r
    ensures forall x :: x in r ==> x in d || x == e
    ensures DistinctNames(r)
    ensures Names(r) == Names(d) + {e.name}
  {
    if d == [] then [e]
    else if d[0].name == e.name then
      PutInPlace(d, e);
      [e] + d[1..]
    else
      var rest := Put(d[1..], e);
      PutBehind(d, e, rest);
      [d[0]] + rest
  }

  /** Replacing the first entry by one of the same name keeps the names. */
  lemma PutInPlace(d: seq<ServerEmoji>, e: ServerEmoji)
    requires DistinctNames(d) && d != [] && d[0].name == e.name
    ensures DistinctNames([e] + d[1..])
    ensures Names([e] + d[1..]) == Names(d) + {e.name}
  {
    assert d == [d[0]] + d[1..];
    NamesCons(d[0], d[1..]);
    NamesCons(e, d[1..]);
  }

  /** Keeping the first entry in front of the rest's assignment. */
  lemma PutBehind(d: seq<ServerEmoji>, e: ServerEmoji, rest: seq<ServerEmoji>)
    requires DistinctNames(d) && d != [] && d[0].name != e.name
    requires DistinctNames(rest) && Names(rest) == Names(d[1..]) + {e.name}
    ensures DistinctNames([d[0]] + rest)
    ensures Names([d[0]] + rest) == Names(d) + {e.name}
  {
    var r := [d[0]] + rest;
    assert d[0].name !in Names(d[1..]) by {
      forall x | x in d[1..]
        ensures x.name != d[0].name
      {
        var k :| 0 <= k < |d[1..]| && d[1..][k] == x;
        assert d[k + 1] == x;
      }
    }
    forall i, j | 0 <= i < j < |r|
      ensures r[i].name != r[j].name
    {
      assert r[j] == rest[j - 1];
      if i == 0 {
        assert rest[j - 1] in rest;
        assert r[j].name in Names(rest);
      } else {
        assert r[i] == rest[i - 1];
      }
    }
    assert d == [d[0]] + d[1..];
    NamesCons(d[0], d[1..]);
    NamesCons(d[0], rest);
  }

  lemma NamesCons(x: ServerEmoji, d: seq<ServerEmoji>)
    ensures Names([x] + d) == {x.name} + Names(d)
  {
    assert forall y :: y in [x] + d <==> y == x || y in d;
  }

  lemma NamesSnoc(d: seq<ServerEmoji>, x: ServerEmoji)
    ensures Names(d + [x]) == Names(d) + {x.name}
  {
    assert forall y :: y in d + [x] <==> y in d || y == x;
  }

  /** Each server emoji found in the text written as `:name:`. */
  function ReplaceEmojis(s: string, table: seq<ServerEmoji>): string
    decreases |table|
  {
    if table == [] then s
    else
      var next := if Text.Contains(s, table[0].rendered) then Text.Replace(s, table[0].rendered, ":" + table[0].name + ":") else s;
      ReplaceEmojis(next, table[1..])
  }

  /** `clean_message`: channel mentions, then server emoji. */
  function CleanMessage(channels: map<nat, string>, s: string, emojis: seq<ServerEmoji>): (r: string)
    ensures (forall i :: 0 <= i < |s| ==> s[i] != '<') && (forall e :: e in emojis ==> !Text.Contains(s, e.rendered)) ==>
      r == s
  {
    if (forall i :: 0 <= i < |s| ==> s[i] != '<') && (forall e :: e in emojis ==> !Text.Contains(s, e.rendered)) then
      NoMentionWithoutBracket(s);
      EmojisAbsent(s, EmojiTable(emojis));
      ReplaceEmojis(ReplaceChannels(s, ChannelMentions(s), channels), EmojiTable(emojis))
    else
      ReplaceEmojis(ReplaceChannels(s, ChannelMentions(s), channels), EmojiTable(emojis))
  }
  /** Text without mentions, from a server without custom emoji, is kept
      as it is. */
  lemma PlainTextKept(channels: map<nat, string>, s: string)
    requires forall i :: 0 <= i < |s| ==> s[i] != '<'
    ensures CleanMessage(channels, s, []) == s
  {
  }


  /** Text with no channel mention and no server emoji comes out as it went
      in. */
  lemma {:induction false} EmojisAbsent(s: string, table: seq<ServerEmoji>)
    requires forall i :: 0 <= i < |table| ==> !Text.Contains(s, table[i].rendered)
    ensures ReplaceEmojis(s, table) == s
  {
    if table != [] {
      EmojisAbsent(s, table[1..]);
    }
  }

  /** A mention of a channel the client knows becomes `#name`. */
  lemma ChannelNamed(channels: map<nat, string>, id: nat)
    requires id in channels
    ensures CleanMessage(channels, "<#" + Text.NatToString(id) + ">", []) == "#" + channels[id]
  {
    var d := Text.NatToString(id);
    var s, named := "<#" + d + ">", "#" + channels[id];
    MentionFound(d);
    Text.ParseNatToString(id);
    Text.ReplaceWhole(s, named);
    assert ReplaceChannels(s, [d], channels) == ReplaceChannels(named, [], channels) == named;
    assert EmojiTable([]) == [];
  }

  /** A mention of a channel the client cannot see stays as it is. */
  lemma UnknownChannelKept(channels: map<nat, string>, id: nat)
    requires id !in channels
    ensures CleanMessage(channels, "<#" + Text.NatToString(id) + ">", []) == "<#" + Text.NatToString(id) + ">"
  {
    var d := Text.NatToString(id);
    var s := "<#" + d + ">";
    MentionFound(d);
    Text.ParseNatToString(id);
    assert ReplaceChannels(s, [d], channels) == ReplaceChannels(s, [], channels) == s;
    assert EmojiTable([]) == [];
  }

  // ---------------------------------------------------------------------
  // Rules for a motto.

  /** `is_valid_message`: every required pattern occurs, no excluded one
      does, and the text does not itself start with a new-motto trigger. */
  predicate ValidMotto(x: Matchers, content: string) {
    && (forall i :: 0 <= i < |x.matching| ==> x.matching[i](content))
    && !(exists i :: 0 <= i < |x.excluding| && x.excluding[i](content))
    && !(exists i :: 0 <= i < |x.newMotto| && x.newMotto[i].matchesAtStart(content))
  }
}
