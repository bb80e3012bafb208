/** The decisions the store layer makes: which stored mottos count as
    duplicates, how deletions are split into batches, and which record
    changes each storage operation asks the store for. A table listing is a
    sequence of records; the changes are returned as requests. */
module Storage {
  import opened Common
  import Text
  import opened Models
  import opened Chat

  datatype Table = MottoTable | MemberTable

  /** A change sent to the store. A single id is deleted by addressing the
      record itself; several ids go in one `records` query. */
  datatype Request =
    | Insert(table: Table, fields: map<Column, Value>)
    | Update(table: Table, id: string, fields: map<Column, Value>)
    | DeleteOne(table: Table, id: string)
    | DeleteMany(table: Table, ids: seq<string>)

  /** A table listing as the store returns it: every record has an id, and
      no two records share one. */
  predicate Listed(records: seq<Record>) {
    && (forall i :: 0 <= i < |records| ==> records[i].id.Some?)
    && (forall i, j :: 0 <= i < j < |records| ==> records[i].id != records[j].id)
  }

  const MicrosPerHour := 3_600_000_000

  // ---------------------------------------------------------------------
  // The duplicate test, computed by the store's filter formula.

  /** `\s` of the store's regular expressions: ASCII whitespace without
      the vertical tab. */
  predicate FormulaSpace(c: char) {
    c == ' ' || c == '\t' || c == '\n' || c == '\U{000C}' || c == '\r'
  }

  /** `\w` of the store's regular expressions. */
  predicate WordChar(c: char) {
    ('0' <= c <= '9') || ('a' <= c <= 'z') || ('A' <= c <= 'Z') || c == '_'
  }

  /** Deletes every run of characters matching `[^\w ]+`. */
  function RemoveNonWord(s: string): (r: string)
    ensures |r| <= |s|
    ensures forall i :: 0 <= i < |r| ==> WordChar(r[i]) || r[i] == ' '
  {
    if s == [] then []
    else (if WordChar(s[0]) || s[0] == ' ' then [s[0]] else []) + RemoveNonWord(s[1..])
  }

  /** No two whitespace characters are adjacent. */
  predicate SingleSpaced(r: string) {
    forall i :: 0 <= i < |r| - 1 ==> !(FormulaSpace(r[i]) && FormulaSpace(r[i + 1]))
  }

  lemma SingleSpacedCons(x: char, t: string)
    requires SingleSpaced(t)
    requires FormulaSpace(x) && t != [] ==> !FormulaSpace(t[0])
    ensures SingleSpaced([x] + t)
  {
    var r := [x] + t;
    assert forall i :: 1 <= i < |r| ==> r[i] == t[i - 1];
  }

  /** Replaces every run of whitespace by one space. */
  function Collapse(s: string): (r: string)
    ensures s == [] <==> r == []
    ensures s != [] && FormulaSpace(s[0]) ==> r[0] == ' '
    ensures s != [] && !FormulaSpace(s[0]) ==> r[0] == s[0]
    ensures SingleSpaced(r)
    ensures forall i :: 0 <= i < |r| ==> r[i] == ' ' || r[i] in s
    decreases |s|
  {
    if s == [] then []
    else if FormulaSpace(s[0]) then
      var rest := Text.TrimLeftBy(s[1..], FormulaSpace);
      SingleSpacedCons(' ', Collapse(rest));
      " " + Collapse(rest)
    else
      SingleSpacedCons(s[0], Collapse(s[1..]));
      [s[0]] + Collapse(s[1..])
  }

  /** The text both sides of the duplicate test are reduced to: trimmed,
      lower-cased, punctuation removed, whitespace runs collapsed. */
  function Normalize(s: string): (r: string)
    ensures SingleSpaced(r)
    ensures forall i :: 0 <= i < |r| ==> WordChar(r[i]) || r[i] == ' '
  {
    Collapse(RemoveNonWord(Text.Lower(Text.StripBy(s, FormulaSpace))))
  }

  lemma FormulaSpaceIsCaseBlind()
    ensures Text.CaseBlind(FormulaSpace)
  {
  }

  /** Texts that differ only in letter case are duplicates. */
  lemma NormalizeIgnoresCase(s: string)
    ensures Normalize(Text.Lower(s)) == Normalize(s)
  {
    FormulaSpaceIsCaseBlind();
    Text.LowerCommutesWithStripBy(s, FormulaSpace);
    Text.LowerIdempotent(Text.StripBy(s, FormulaSpace));
  }

  /** Texts that differ only in surrounding whitespace are duplicates. */
  lemma NormalizeIgnoresPadding(p: string, s: string, q: string)
    requires forall i :: 0 <= i < |p| ==> FormulaSpace(p[i])
    requires forall i :: 0 <= i < |q| ==> FormulaSpace(q[i])
    ensures Normalize(p + s + q) == Normalize(s)
  {
    Text.StripPadded(p, s, q, FormulaSpace);
  }

  lemma {:induction false} RemoveNonWordAppend(a: string, b: string)
    ensures RemoveNonWord(a + b) == RemoveNonWord(a) + RemoveNonWord(b)
    decreases |a|
  {
    if a != [] {
      assert (a + b)[1..] == a[1..] + b;
      RemoveNonWordAppend(a[1..], b);
    } else {
      assert a + b == b;
    }
  }

  /** A trailing punctuation mark does not make a text new. */
  lemma NormalizeIgnoresTrailingPunctuation(s: string, c: char)
    requires !WordChar(c) && c != ' ' && !FormulaSpace(c)
    requires s == [] || !FormulaSpace(s[|s| - 1])
    ensures Normalize(s + [c]) == Normalize(s)
  {
    StripBeforeMark(s, c);
    MarkVanishes(Text.StripBy(s, FormulaSpace), c);
  }

  /** Trimming a text that ends in a visible mark keeps the mark and trims
      what comes before it. */
  lemma StripBeforeMark(s: string, c: char)
    requires !FormulaSpace(c)
    requires s == [] || !FormulaSpace(s[|s| - 1])
    ensures Text.StripBy(s + [c], FormulaSpace) == Text.StripBy(s, FormulaSpace) + [c]
  {
    var t := Text.TrimLeftBy(s, FormulaSpace);
    if s == [] {
      assert s + [c] == [c];
      assert Text.TrimLeftBy([c], FormulaSpace) == [c];
    } else {
      assert t != [];
      Text.TrimLeftAppend(s, [c], FormulaSpace);
      assert t[|t| - 1] == s[|s| - 1];
      assert Text.TrimRightBy(t, FormulaSpace) == t;
      assert Text.TrimRightBy(t + [c], FormulaSpace) == t + [c];
    }
  }

  /** A mark that is neither a word character nor a space is removed
      together with its lower-case form. */
  lemma MarkVanishes(u: string, c: char)
    requires !WordChar(c) && c != ' ' && !FormulaSpace(c)
    ensures RemoveNonWord(Text.Lower(u + [c])) == RemoveNonWord(Text.Lower(u))
  {
    Text.LowerAppend(u, [c]);
    assert Text.Lower([c]) == [Text.LowerChar(c)];
    assert RemoveNonWord([Text.LowerChar(c)]) == [];
    RemoveNonWordAppend(Text.Lower(u), [Text.LowerChar(c)]);
    assert RemoveNonWord(Text.Lower(u)) + [] == RemoveNonWord(Text.Lower(u));
  }

  /** Normalising twice can differ from normalising once: punctuation in
      front of a space is removed after the trimming, so the space stays. */
  lemma NormalizeNotIdempotent()
    ensures Normalize(Normalize("! a")) != Normalize("! a")
  {
    NormalizeBangSpace();
    NormalizeSpaceA();
  }

  lemma NormalizeBangSpace()
    ensures Normalize("! a") == " a"
  {
    assert Text.StripBy("! a", FormulaSpace) == "! a";
    assert Text.Lower("! a") == "! a";
    assert RemoveNonWord("! a") == " a";
    assert Text.TrimLeftBy("a", FormulaSpace) == "a";
    assert Collapse("a") == "a";
    assert Collapse(" a") == " a";
  }

  lemma NormalizeSpaceA()
    ensures Normalize(" a") == "a"
  {
    assert Text.TrimLeftBy(" a", FormulaSpace) == "a";
    assert Text.StripBy(" a", FormulaSpace) == "a";
    assert Text.Lower("a") == "a";
    assert RemoveNonWord("a") == "a";
    assert Collapse("a") == "a";
  }

  /** The text of a stored field as a formula sees it: empty when absent. */
  function FieldText(r: Record, c: Column): string {
    if c in r.fields && r.fields[c].Str? then r.fields[c].s else ""
  }

  /** The filter of `get_matching_mottos`: same normalised text, or (when a
      non-zero message id is given) the same message. */
  predicate Matches(r: Record, text: string, messageId: Option<nat>) {
    || Normalize(text) == Normalize(FieldText(r, MottoColumn))
    || (messageId.Some? && messageId.value != 0 && Text.NatToString(messageId.value) == FieldText(r, MessageIdColumn))
  }

  function MatchingMottos(records: seq<Record>, text: string, messageId: Option<nat>): (r: seq<Record>)
    ensures forall x :: x in r <==> x in records && Matches(x, text, messageId)
  {
    if records == [] then []
    else
      var rest := MatchingMottos(records[1..], text, messageId);
      assert records == [records[0]] + records[1..];
      (if Matches(records[0], text, messageId) then [records[0]] else []) + rest
  }

  /** Every record of a listing decodes as a Motto. */
  predicate AllDecode(records: seq<Record>) {
    forall i :: 0 <= i < |records| ==> MottoFromAirtable(records[i]).Ok?
  }

  /** `get_matching_mottos`: whether any stored motto is a duplicate. Every
      match is decoded, so a match that does not decode raises. */
  function IsRepeat(records: seq<Record>, text: string, messageId: Option<nat>): (r: Result<bool>)
    ensures r.Ok? <==> AllDecode(MatchingMottos(records, text, messageId))
    ensures r.Ok? ==> (r.value <==> exists i :: 0 <= i < |records| && Matches(records[i], text, messageId))
  {
    var matched := MatchingMottos(records, text, messageId);
    if AllDecode(matched) then
      assert matched != [] ==> matched[0] in records;
      Ok(matched != [])
    else Err(FirstFailure(matched))
  }

  /** The exception raised by the first record that does not decode. */
  function FirstFailure(records: seq<Record>): Exception
    requires !AllDecode(records)
  {
    if MottoFromAirtable(records[0]).Err? then MottoFromAirtable(records[0]).exception
    else
      assert !AllDecode(records[1..]) by {
        var i :| 0 <= i < |records| && MottoFromAirtable(records[i]).Err?;
        assert records[1..][i - 1] == records[i];
      }
      FirstFailure(records[1..])
  }

  /** A text that normalises like a stored motto is a repeat, whatever
      message it came from. */
  lemma RepeatOfStoredText(records: seq<Record>, i: nat, text: string, messageId: Option<nat>)
    requires i < |records|
    requires Normalize(text) == Normalize(FieldText(records[i], MottoColumn))
    requires IsRepeat(records, text, messageId).Ok?
    ensures IsRepeat(records, text, messageId).value
  {
  }

  /** Record `i` is the first one from the given message. */
  predicate FirstFromMessage(records: seq<Record>, messageId: nat, i: int) {
    && 0 <= i < |records|
    && FieldText(records[i], MessageIdColumn) == Text.NatToString(messageId)
    && forall j :: 0 <= j < i ==> FieldText(records[j], MessageIdColumn) != Text.NatToString(messageId)
  }

  /** What `get_motto` makes of the record it found: the decoded Motto, or
      the exception decoding raised. */
  function Found(m: Result<Motto>): Result<Option<Motto>> {
    match m
    case Ok(motto) => Ok(Some(motto))
    case Err(e) => Err(e)
  }

  /** `get_motto`: the first stored motto from the given message. */
  function GetMotto(records: seq<Record>, messageId: nat): (r: Result<Option<Motto>>)
    ensures r == Ok(None) <==> forall i :: 0 <= i < |records| ==> FieldText(records[i], MessageIdColumn) != Text.NatToString(messageId)
    ensures r.Ok? && r.value.Some? ==> exists i :: (0 <= i < |records| && records[i].id == r.value.value.primaryKey
      && FieldText(records[i], MessageIdColumn) == Text.NatToString(messageId))
    ensures r != Ok(None) ==> exists i :: FirstFromMessage(records, messageId, i) && r == Found(MottoFromAirtable(records[i]))
    decreases |records|
  {
    if records == [] then Ok(None)
    else if FieldText(records[0], MessageIdColumn) == Text.NatToString(messageId) then
      assert FirstFromMessage(records, messageId, 0);
      var m :- MottoFromAirtable(records[0]);
      Ok(Some(m))
    else
      var r := GetMotto(records[1..], messageId);
      assert forall i :: 1 <= i < |records| ==> records[i] == records[1..][i - 1];
      assert r != Ok(None) ==> exists i :: FirstFromMessage(records, messageId, i) && r == Found(MottoFromAirtable(records[i])) by {
        if r != Ok(None) {
          var k :| FirstFromMessage(records[1..], messageId, k) && r == Found(MottoFromAirtable(records[1..][k]));
          assert FirstFromMessage(records, messageId, k + 1);
        }
      }
      r
  }

  /** Looking up the message of a motto saved in full finds that motto
      again, when no earlier record comes from the same message. */
  lemma GetSavedMotto(records: seq<Record>, messageId: nat, i: nat, m: Motto)
    requires m.date.Some?
    requires FirstFromMessage(records, messageId, i)
    requires MottoToAirtable(m, []).Ok? && records[i] == MottoToAirtable(m, []).value
    ensures GetMotto(records, messageId)
      == Ok(Some(m.(member := Key(RefKey(m.member)), nominatedBy := Key(RefKey(m.nominatedBy)))))
  {
    var r := GetMotto(records, messageId);
    assert r != Ok(None);
    var k :| FirstFromMessage(records, messageId, k) && r == Found(MottoFromAirtable(records[k]));
    assert k == i;
    MottoRoundTrip(m);
  }

  // ---------------------------------------------------------------------
  // Deletion in batches of at most ten.

  const BatchSize := 10

  function Flatten(xss: seq<seq<string>>): seq<string> {
    if xss == [] then [] else xss[0] + Flatten(xss[1..])
  }

  /** `ids[o:o + 10]` for `o` in `range(0, len(ids), 10)`. */
  function Batches(ids: seq<string>): (bs: seq<seq<string>>)
    ensures |bs| == (|ids| + BatchSize - 1) / BatchSize
    ensures forall i :: 0 <= i < |bs| ==> 0 < |bs[i]| <= BatchSize
    ensures forall i :: 0 <= i < |bs| - 1 ==> |bs[i]| == BatchSize
    ensures Flatten(bs) == ids
    decreases |ids|
  {
    if ids == [] then []
    else if |ids| <= BatchSize then
      assert Flatten([ids]) == ids + [];
      [ids]
    else
      var rest := Batches(ids[BatchSize..]);
      assert Flatten([ids[..BatchSize]] + rest) == ids[..BatchSize] + Flatten(rest) by {
        assert ([ids[..BatchSize]] + rest)[1..] == rest;
      }
      assert ids[..BatchSize] + ids[BatchSize..] == ids;
      [ids[..BatchSize]] + rest
  }

  /** The ids one request deletes. */
  function DeletedIds(r: Request): seq<string> {
    match r
    case DeleteOne(_, id) => [id]
    case DeleteMany(_, ids) => ids
    case _ => []
  }

  function AllDeletedIds(rs: seq<Request>): seq<string> {
    if rs == [] then [] else DeletedIds(rs[0]) + AllDeletedIds(rs[1..])
  }

  /** `_delete` for each batch: a one-id batch addresses the record, a
      larger one lists its ids. */
  function DeleteRequests(table: Table, ids: seq<string>): (rs: seq<Request>)
    ensures |rs| == |Batches(ids)|
    ensures forall i :: 0 <= i < |rs| ==> rs[i].table == table
    ensures forall i :: 0 <= i < |rs| ==> (rs[i].DeleteOne? <==> |Batches(ids)[i]| == 1)
    ensures forall i :: 0 <= i < |rs| ==> (rs[i].DeleteMany? <==> |Batches(ids)[i]| > 1)
    ensures forall i :: 0 <= i < |rs| ==> DeletedIds(rs[i]) == Batches(ids)[i]
  {
    var bs := Batches(ids);
    seq(|bs|, i requires 0 <= i < |bs| => if |bs[i]| > 1 then DeleteMany(table, bs[i]) else DeleteOne(table, bs[i][0]))
  }

  /** The requests delete exactly the given ids, in order. */
  lemma DeleteRequestsCoverIds(table: Table, ids: seq<string>)
    ensures AllDeletedIds(DeleteRequests(table, ids)) == ids
  {
    var rs := DeleteRequests(table, ids);
    DeletedIdsOfBatches(rs, Batches(ids));
  }

  lemma {:induction false} DeletedIdsOfBatches(rs: seq<Request>, bs: seq<seq<string>>)
    requires |rs| == |bs| && forall i :: 0 <= i < |rs| ==> DeletedIds(rs[i]) == bs[i]
    ensures AllDeletedIds(rs) == Flatten(bs)
    decreases |rs|
  {
    if rs != [] {
      DeletedIdsOfBatches(rs[1..], bs[1..]);
    }
  }

  /** A single record is addressed directly, as `delete_motto` does. */
  lemma DeleteSingle(table: Table, pk: string)
    ensures DeleteRequests(table, [pk]) == [DeleteOne(table, pk)]
  {
    assert Batches([pk]) == [[pk]];
  }

  // ---------------------------------------------------------------------
  // Saving.

  /** The attributes `save_motto` writes when none are named; the author's
      approval is not among them. */
  const DefaultSaveFields: seq<Attribute> :=
    [MottoAttribute, MessageIdAttribute, MemberAttribute, DateAttribute, NominatedByAttribute,
     ApprovedAttribute, BotIdAttribute]

  /** The attributes a save writes: those named, or the defaults. */
  function SaveFields(fields: seq<Attribute>): seq<Attribute> {
    if fields == [] then DefaultSaveFields else fields
  }

  /** `save_motto`: an update of the existing record when the Motto has a
      primary key, an insert otherwise; a save that writes the date needs
      one. */
  function SaveMotto(m: Motto, fields: seq<Attribute>): (r: Result<Request>)
    ensures r.Ok? <==> (DateAttribute in SaveFields(fields) ==> m.date.Some?)
    ensures r.Ok? ==> r.value.table == MottoTable
    ensures r.Ok? ==> (r.value.Update? <==> Present(m.primaryKey)) && (r.value.Insert? <==> !Present(m.primaryKey))
    ensures r.Ok? && r.value.Update? ==> r.value.id == m.primaryKey.value
  {
    var data :- MottoToAirtable(m, SaveFields(fields));
    if Present(m.primaryKey) then Ok(Update(MottoTable, m.primaryKey.value, data.fields))
    else Ok(Insert(MottoTable, data.fields))
  }

  /** A save writes exactly the columns of the attributes it writes, each
      with the motto's value. */
  lemma SavedFields(m: Motto, fields: seq<Attribute>)
    requires SaveMotto(m, fields).Ok?
    ensures var r := SaveMotto(m, fields).value;
      forall c :: c in r.fields <==> c in MottoColumns && AttributeOf(c) in SaveFields(fields)
    ensures var r := SaveMotto(m, fields).value;
      forall c :: c in r.fields ==> r.fields[c] == ColumnValue(m, c)
  {
  }

  /** A column among those saved holds the motto's value for it. */
  lemma SavedColumn(m: Motto, fields: seq<Attribute>, column: Column)
    requires SaveMotto(m, fields).Ok?
    requires column in MottoColumns && AttributeOf(column) in SaveFields(fields)
    ensures column in SaveMotto(m, fields).value.fields
    ensures SaveMotto(m, fields).value.fields[column] == ColumnValue(m, column)
  {
    SavedFields(m, fields);
  }

  /** One column of a save: present exactly when its attribute is written,
      and then with the motto's value. */
  lemma SavedOrNot(m: Motto, fields: seq<Attribute>, column: Column)
    requires SaveMotto(m, fields).Ok?
    ensures column in SaveMotto(m, fields).value.fields <==> column in MottoColumns && AttributeOf(column) in SaveFields(fields)
    ensures column in SaveMotto(m, fields).value.fields ==> SaveMotto(m, fields).value.fields[column] == ColumnValue(m, column)
  {
    SavedFields(m, fields);
  }

  /** A column whose attribute is not written is absent. */
  lemma NotSaved(m: Motto, fields: seq<Attribute>, column: Column)
    requires SaveMotto(m, fields).Ok?
    requires AttributeOf(column) !in SaveFields(fields)
    ensures column !in SaveMotto(m, fields).value.fields
  {
    SavedFields(m, fields);
  }

  /** The text, message id, date and approval columns are among the
      default fields. */
  lemma DefaultColumn(column: Column)
    requires column == MottoColumn || column == MessageIdColumn || column == DateColumn || column == ApprovedColumn
    ensures column in MottoColumns && AttributeOf(column) in SaveFields([])
  {
    assert MottoColumns[0] == MottoColumn && MottoColumns[1] == MessageIdColumn;
    assert MottoColumns[2] == DateColumn && MottoColumns[6] == ApprovedColumn;
    assert DefaultSaveFields[0] == MottoAttribute && DefaultSaveFields[1] == MessageIdAttribute;
    assert DefaultSaveFields[3] == DateAttribute && DefaultSaveFields[5] == ApprovedAttribute;
  }

  /** The author's approval is not among the default fields. */
  lemma AuthorApprovalNotDefault()
    ensures ApprovedByAuthorAttribute !in SaveFields([])
  {
  }

  /** Saving with the default fields writes the text, the message id, the
      date and the approval, each with the motto's value. */
  lemma SavedDefault(m: Motto, column: Column)
    requires m.date.Some?
    requires column == MottoColumn || column == MessageIdColumn || column == DateColumn || column == ApprovedColumn
    ensures SaveMotto(m, []).Ok?
    ensures column in SaveMotto(m, []).value.fields
    ensures SaveMotto(m, []).value.fields[column] == ColumnValue(m, column)
  {
    DefaultColumn(column);
    SavedColumn(m, [], column);
  }

  /** Saving with the default fields leaves the author's approval alone. */
  lemma DefaultLeavesAuthorApproval(m: Motto)
    requires m.date.Some?
    ensures SaveMotto(m, []).Ok?
    ensures ApprovedByAuthorColumn !in SaveMotto(m, []).value.fields
  {
    AuthorApprovalNotDefault();
    NotSaved(m, [], ApprovedByAuthorColumn);
  }

  // ---------------------------------------------------------------------
  // Members.

  /** `get_name`: the server nickname when one is set, otherwise the name
      the platform displays. */
  function GetName(u: User): string {
    if Present(u.nick) then u.nick.value else u.displayName
  }

  /** The member record with the given chat id, if any. */
  function FindMember(members: seq<Record>, discordId: nat): (r: Option<Record>)
    ensures r.Some? ==> r.value in members && FieldText(r.value, DiscordIdColumn) == Text.NatToString(discordId)
    ensures r.None? ==> forall i :: 0 <= i < |members| ==> FieldText(members[i], DiscordIdColumn) != Text.NatToString(discordId)
  {
    if members == [] then None
    else if FieldText(members[0], DiscordIdColumn) == Text.NatToString(discordId) then Some(members[0])
    else
      assert forall i :: 1 <= i < |members| ==> members[i] == members[1..][i - 1];
      FindMember(members[1..], discordId)
  }

  /** The fields a new member record starts with. */
  function NewMemberFields(u: User, botId: Option<string>): map<Column, Value> {
    map[UsernameColumn := Str(u.name), DiscordIdColumn := Str(Text.NatToString(u.id)),
        BotIdColumn := Str(if Present(botId) then botId.value else "")]
  }

  /** `get_or_add_member`: the stored member with the user's id, or a new
      record (which the store gives the id `newId`). */
  function GetOrAddMember(members: seq<Record>, u: User, botId: Option<string>, newId: string): (r: Result<(Member, seq<Request>)>)
    ensures FindMember(members, u.id).Some? ==> r.Ok? ==> r.value.1 == []
    ensures FindMember(members, u.id).Some? ==> (r.Ok? <==> MemberFromAirtable(FindMember(members, u.id).value).Ok?)
    ensures FindMember(members, u.id).Some? && r.Ok? ==> r.value.0 == MemberFromAirtable(FindMember(members, u.id).value).value
    ensures FindMember(members, u.id).None? ==> r.Ok? && r.value.1 == [Insert(MemberTable, NewMemberFields(u, botId))]
    ensures FindMember(members, u.id).None? ==>
      r.value.0.primaryKey == Some(newId) && r.value.0.username == Some(u.name) && !r.value.0.useNickname
  {
    match FindMember(members, u.id)
    case Some(rec) =>
      var m :- MemberFromAirtable(rec);
      Ok((m, []))
    case None =>
      var fields := NewMemberFields(u, botId);
      var m := MemberFromAirtable(Record(Some(newId), fields));
      assert m.Ok?;
      Ok((m.value, [Insert(MemberTable, fields)]))
  }

  /** An update of one member record; a member without a key cannot be
      addressed. */
  function UpdateMember(m: Member, fields: map<Column, Value>): (r: Result<Request>)
    ensures r.Ok? <==> m.primaryKey.Some?
    ensures r.Ok? ==> r.value == Update(MemberTable, m.primaryKey.value, fields)
  {
    if m.primaryKey.None? then Err(TypeError) else Ok(Update(MemberTable, m.primaryKey.value, fields))
  }

  /** The changes `update_name` finds between the stored member and the
      chat user. */
  function NameChanges(m: Member, u: User): (d: map<Column, Value>)
    ensures UsernameColumn in d <==> m.username != Some(u.name)
    ensures UsernameColumn in d ==> d[UsernameColumn] == Str(u.name)
    ensures m.useNickname ==> (NicknameColumn in d <==> m.nickname != Some(GetName(u)) && Some(GetName(u)) != m.username)
    ensures !m.useNickname ==> (NicknameColumn in d <==> Present(m.nickname))
    ensures NicknameColumn in d ==> d[NicknameColumn] == Str(if m.useNickname then GetName(u) else "")
    ensures forall c :: c in d ==> c == UsernameColumn || c == NicknameColumn
  {
    var username := if m.username != Some(u.name) then map[UsernameColumn := Str(u.name)] else map[];
    var nick := GetName(u);
    var nickname :=
      if m.useNickname then
        if m.nickname != Some(nick) && Some(nick) != m.username then map[NicknameColumn := Str(nick)] else map[]
      else if Present(m.nickname) then map[NicknameColumn := Str("")]
      else map[];
    username + nickname
  }

  /** `update_name`: no request when nothing changed. */
  function UpdateName(m: Member, u: User): (r: Result<Option<Request>>)
    ensures NameChanges(m, u) == map[] <==> r == Ok(None)
    ensures r.Err? <==> NameChanges(m, u) != map[] && m.primaryKey.None?
    ensures r.Ok? && r.value.Some? ==> r.value.value == Update(MemberTable, m.primaryKey.value, NameChanges(m, u))
  {
    var d := NameChanges(m, u);
    if d == map[] then Ok(None)
    else
      var req :- UpdateMember(m, d);
      Ok(Some(req))
  }

  /** A text field as read back: the store drops empty text. */
  function StoredText(v: Value): Option<string> {
    if v.Str? && v.s != "" then Some(v.s) else None
  }

  /** The member as the store holds it after an update. */
  function ApplyMemberUpdate(m: Member, d: map<Column, Value>): Member {
    var m1 := if UsernameColumn in d then m.(username := StoredText(d[UsernameColumn])) else m;
    var m2 := if NicknameColumn in d then m1.(nickname := StoredText(d[NicknameColumn])) else m1;
    var m3 := if UseNicknameColumn in d && d[UseNicknameColumn].Bool? then m2.(useNickname := d[UseNicknameColumn].b) else m2;
    if EmojiColumn in d then m3.(emoji := StoredText(d[EmojiColumn])) else m3
  }

  /** Running `update_name` again right after its update finds nothing more
      to change, except in one case: with the nickname option on, the shown
      name equals the old username (so the nickname was not written) while
      the username itself changed. Chat names are never empty. */
  lemma UpdateNameSettles(m: Member, u: User)
    requires u.name != "" && GetName(u) != ""
    ensures NameChanges(ApplyMemberUpdate(m, NameChanges(m, u)), u) == map[] <==>
      !(m.useNickname && Some(GetName(u)) == m.username && m.username != Some(u.name) && m.nickname != Some(GetName(u)))
  {
    var after := ApplyMemberUpdate(m, NameChanges(m, u));
    if m.useNickname && Some(GetName(u)) == m.username && m.username != Some(u.name) && m.nickname != Some(GetName(u)) {
      assert NicknameColumn in NameChanges(after, u);
    }
  }

  /** `set_nick_option`: always writes the option, and clears the nickname
      when turning it off. */
  function SetNickOption(m: Member, on: bool): (r: Result<Request>)
    ensures r.Ok? <==> m.primaryKey.Some?
    ensures r.Ok? ==> r.value.Update? && r.value.table == MemberTable
    ensures r.Ok? ==> UseNicknameColumn in r.value.fields && r.value.fields[UseNicknameColumn] == Bool(on)
    ensures r.Ok? ==> (NicknameColumn in r.value.fields <==> !on)
    ensures r.Ok? && !on ==> r.value.fields[NicknameColumn] == Null
    ensures r.Ok? ==> forall c :: c in r.value.fields ==> c == UseNicknameColumn || c == NicknameColumn
  {
    var fields := if on then map[UseNicknameColumn := Bool(on)] else map[UseNicknameColumn := Bool(on), NicknameColumn := Null];
    UpdateMember(m, fields)
  }

  /** After `!nick off` the leaderboard shows the username. */
  lemma NickOffShowsUsername(m: Member)
    requires SetNickOption(m, false).Ok?
    ensures DisplayName(ApplyMemberUpdate(m, SetNickOption(m, false).value.fields)) ==
      (if Present(m.emoji) then m.emoji.value + " " else "") + Show(m.username)
  {
  }

  /** `update_emoji`: writes only the emoji, and only when it changes. */
  function UpdateEmoji(m: Member, emoji: string): (r: Result<Option<Request>>)
    ensures m.emoji == Some(emoji) <==> r == Ok(None)
    ensures r.Err? <==> m.emoji != Some(emoji) && m.primaryKey.None?
    ensures r.Ok? && r.value.Some? ==> r.value.value == Update(MemberTable, m.primaryKey.value, map[EmojiColumn := Str(emoji)])
  {
    if m.emoji == Some(emoji) then Ok(None)
    else
      var req :- UpdateMember(m, map[EmojiColumn := Str(emoji)]);
      Ok(Some(req))
  }

  /** Clearing an emoji that is already unset still writes the empty text:
      an unset emoji is not the empty string. */
  lemma ClearingUnsetEmojiWrites(m: Member)
    requires m.emoji.None? && m.primaryKey.Some?
    ensures UpdateEmoji(m, "") == Ok(Some(Update(MemberTable, m.primaryKey.value, map[EmojiColumn := Str("")])))
  {
  }

  // ---------------------------------------------------------------------
  // Erasing a user's data.

  /** `remove_all_data` as written: the member's own record id is sent to
      the Motto table (`_delete_members` uses the Motto table's address). */
  function RemoveAllDataAsWritten(members: seq<Record>, discordId: nat): (r: Result<seq<Request>>)
    ensures discordId == 0 ==> r == Err(TypeError)
    ensures discordId != 0 && FindMember(members, discordId).None? ==> r == Ok([])
  {
    RemoveAllDataIn(members, discordId, MottoTable)
  }

  /** `remove_all_data` with the member's record deleted from the Member
      table. */
  function RemoveAllData(members: seq<Record>, discordId: nat): (r: Result<seq<Request>>)
    ensures discordId == 0 ==> r == Err(TypeError)
    ensures discordId != 0 && FindMember(members, discordId).None? ==> r == Ok([])
    ensures r.Ok? ==> forall i :: 0 <= i < |r.value| ==> (r.value[i].DeleteOne? || r.value[i].DeleteMany?)
  {
    RemoveAllDataIn(members, discordId, MemberTable)
  }

  /** Deletes the user's mottos, then the user's member record from
      `memberTable`. A zero id names nobody and raises. */
  function RemoveAllDataIn(members: seq<Record>, discordId: nat, memberTable: Table): (r: Result<seq<Request>>)
    ensures discordId == 0 ==> r == Err(TypeError)
    ensures discordId != 0 && FindMember(members, discordId).None? ==> r == Ok([])
  {
    if discordId == 0 then Err(TypeError)
    else match FindMember(members, discordId)
      case None => Ok([])
      case Some(rec) =>
        var m :- MemberFromAirtable(rec);
        Ok(DeleteRequests(MottoTable, m.mottos) + DeleteRequests(memberTable, [OptionText(m.primaryKey)]))
  }

  /** An id as it appears in a request path (`None` prints as "None"). */
  function OptionText(o: Option<string>): string {
    Show(o)
  }

  /** As written, the erasure never touches the Member table: the member's
      id is sent to the Motto table, where no such record exists. */
  lemma RemoveAllDataMissesMemberTable(members: seq<Record>, discordId: nat)
    requires RemoveAllDataAsWritten(members, discordId).Ok?
    ensures forall i :: 0 <= i < |RemoveAllDataAsWritten(members, discordId).value| ==>
      RemoveAllDataAsWritten(members, discordId).value[i].table == MottoTable
  {
  }

  /** Corrected, the erasure deletes the user's mottos and then the user's
      own record from the Member table, and nothing else. */
  lemma RemoveAllDataDeletesMember(members: seq<Record>, discordId: nat)
    requires discordId != 0 && Listed(members)
    requires FindMember(members, discordId).Some?
    requires MemberFromAirtable(FindMember(members, discordId).value).Ok?
    ensures var rec := FindMember(members, discordId).value;
      var m := MemberFromAirtable(rec).value;
      RemoveAllData(members, discordId) == Ok(DeleteRequests(MottoTable, m.mottos) + [DeleteOne(MemberTable, rec.id.value)])
  {
    var rec := FindMember(members, discordId).value;
    var i :| 0 <= i < |members| && members[i] == rec;
    assert rec.id.Some?;
    DeleteSingle(MemberTable, rec.id.value);
  }

  // ---------------------------------------------------------------------
  // Expiring unapproved suggestions.

  /** The date of a stored record: it must be present; integers are
      timestamps and text that is no timestamp cannot be parsed. */
  function RecordDate(r: Record): Result<int> {
    if DateColumn !in r.fields then Err(KeyError)
    else match r.fields[DateColumn]
      case Int(t) => Ok(t)
      case Str(_) => Err(ValueError)
      case _ => Err(TypeError)
  }

  /** A suggestion nobody has approved yet has no text. */
  predicate Unapproved(r: Record) {
    FieldText(r, MottoColumn) == ""
  }

  /** Whether a listed record is an unapproved suggestion older than the
      safe period; its date must be readable, and an expired one must have
      a message id (the sweep logs it). */
  function Expired(r: Record, now: int, safeHours: int): Result<bool> {
    if !Unapproved(r) then Ok(false)
    else
      var date :- RecordDate(r);
      if date < now - safeHours * MicrosPerHour && MessageIdColumn !in r.fields then Err(KeyError)
      else Ok(date < now - safeHours * MicrosPerHour)
  }

  /** The first pass of `remove_unapproved_messages`: the expired records,
      in listing order. A date that cannot be read aborts the sweep. */
  function ExpiredRecords(records: seq<Record>, now: int, safeHours: int): (r: Result<seq<Record>>)
    ensures r.Ok? <==> forall i :: 0 <= i < |records| ==> Expired(records[i], now, safeHours).Ok?
    ensures r.Ok? ==> forall x :: x in r.value <==> x in records && Expired(x, now, safeHours) == Ok(true)
    decreases |records|
  {
    if records == [] then Ok([])
    else
      var expired :- Expired(records[0], now, safeHours);
      var rest :- ExpiredRecords(records[1..], now, safeHours);
      assert forall i :: 1 <= i < |records| ==> records[i] == records[1..][i - 1];
      assert forall x :: x in records <==> x == records[0] || x in records[1..];
      Ok((if expired then [records[0]] else []) + rest)
  }

  /** The second pass: each expired record's id, read through the Motto
      decoder. */
  function RecordIds(records: seq<Record>): (r: Result<seq<string>>)
    ensures r.Ok? <==> AllDecode(records)
    ensures r.Ok? ==> |r.value| == |records| && forall i :: 0 <= i < |records| ==> r.value[i] == Show(records[i].id)
    decreases |records|
  {
    if records == [] then Ok([])
    else
      var m :- MottoFromAirtable(records[0]);
      var rest :- RecordIds(records[1..]);
      assert forall i :: 1 <= i < |records| ==> records[i] == records[1..][i - 1];
      Ok([Show(m.primaryKey)] + rest)
  }

  /** `remove_unapproved_messages`: the ids of the unapproved records dated
      strictly before `now` minus the safe period. */
  function RemoveUnapproved(records: seq<Record>, now: int, safeHours: int): (r: Result<seq<string>>)
    ensures r.Ok? ==> forall x :: x in r.value <==> exists i :: (0 <= i < |records| && Unapproved(records[i])
      && RecordDate(records[i]).Ok? && RecordDate(records[i]).value < now - safeHours * MicrosPerHour
      && Show(records[i].id) == x)
    ensures (forall i :: 0 <= i < |records| ==> !Unapproved(records[i])) ==> r == Ok([])
  {
    var expired :- ExpiredRecords(records, now, safeHours);
    assert (forall i :: 0 <= i < |records| ==> !Unapproved(records[i])) ==> expired == [] by {
      if expired != [] {
        assert expired[0] in expired;
      }
    }
    var ids :- RecordIds(expired);
    ExpiredIds(records, now, safeHours, expired, ids);
    Ok(ids)
  }

  /** The ids of the expired records are those of the records that have
      expired. */
  lemma ExpiredIds(records: seq<Record>, now: int, safeHours: int, expired: seq<Record>, ids: seq<string>)
    requires forall x :: x in expired <==> x in records && Expired(x, now, safeHours) == Ok(true)
    requires |ids| == |expired| && forall i :: 0 <= i < |expired| ==> ids[i] == Show(expired[i].id)
    ensures forall x :: x in ids <==> exists i :: (0 <= i < |records| && Expired(records[i], now, safeHours) == Ok(true)
      && Show(records[i].id) == x)
  {
    forall x
      ensures x in ids <==> exists i :: (0 <= i < |records| && Expired(records[i], now, safeHours) == Ok(true)
        && Show(records[i].id) == x)
    {
      if x in ids {
        var j :| 0 <= j < |ids| && ids[j] == x;
        assert expired[j] in expired;
        var i :| 0 <= i < |records| && records[i] == expired[j];
      }
      if i :| 0 <= i < |records| && Expired(records[i], now, safeHours) == Ok(true) && Show(records[i].id) == x {
        assert records[i] in records;
        var j :| 0 <= j < |expired| && expired[j] == records[i];
        assert ids[j] == x;
      }
    }
  }

  /** The deletions of the sweep, in batches. */
  function RemoveUnapprovedRequests(records: seq<Record>, now: int, safeHours: int): (r: Result<seq<Request>>)
    ensures r.Ok? <==> RemoveUnapproved(records, now, safeHours).Ok?
    ensures r.Ok? ==> forall i :: 0 <= i < |r.value| ==> r.value[i].table == MottoTable
    ensures r.Ok? ==> AllDeletedIds(r.value) == RemoveUnapproved(records, now, safeHours).value
  {
    var ids :- RemoveUnapproved(records, now, safeHours);
    DeleteRequestsCoverIds(MottoTable, ids);
    Ok(DeleteRequests(MottoTable, ids))
  }

  /** The records that `requests` add to `table`, as a listing taken after
      them returns them: each insert becomes a record with the id `newId`
      the store assigns (one event inserts at most one record per table). */
  function Inserted(table: Table, requests: seq<Request>, newId: string): (r: seq<Record>)
    ensures forall i :: 0 <= i < |requests| && requests[i].Insert? && requests[i].table == table ==>
      Record(Some(newId), requests[i].fields) in r
    ensures forall x :: x in r ==> x.id == Some(newId)
    decreases |requests|
  {
    if requests == [] then []
    else
      var rest := Inserted(table, requests[1..], newId);
      assert forall i :: 1 <= i < |requests| ==> requests[i] == requests[1..][i - 1];
      if requests[0].Insert? && requests[0].table == table then [Record(Some(newId), requests[0].fields)] + rest
      else rest
  }

  /** The ids deleted by two batches of requests are those of the first
      followed by those of the second. */
  lemma {:induction false} AllDeletedIdsAppend(a: seq<Request>, b: seq<Request>)
    ensures AllDeletedIds(a + b) == AllDeletedIds(a) + AllDeletedIds(b)
    decreases |a|
  {
    if a != [] {
      assert (a + b)[1..] == a[1..] + b;
      AllDeletedIdsAppend(a[1..], b);
    } else {
      assert a + b == b;
    }
  }

  /** An unapproved record dated before the cutoff, with a message id, in a
      listing the sweep can read, has its id among the deletions. */
  lemma ExpiredRecordDeleted(records: seq<Record>, now: int, safeHours: int, x: Record)
    requires x in records && x.id.Some?
    requires MottoColumn in x.fields && x.fields[MottoColumn] == Str("")
    requires DateColumn in x.fields && x.fields[DateColumn].Int?
    requires x.fields[DateColumn].i < now - safeHours * MicrosPerHour
    requires RemoveUnapprovedRequests(records, now, safeHours).Ok?
    ensures x.id.value in AllDeletedIds(RemoveUnapprovedRequests(records, now, safeHours).value)
  {
    var i :| 0 <= i < |records| && records[i] == x;
    assert Unapproved(x);
    assert RecordDate(x) == Ok(x.fields[DateColumn].i);
    assert Show(x.id) == x.id.value;
  }

  // ---------------------------------------------------------------------
  // A random motto.

  /** How `get_random_motto` filters the listed records: a compiled search
      pattern takes precedence over the search text, which is matched
      without regard to case. Either way a record without text raises KeyError. */
  function RandomFilter(r: Record, search: Option<string>, pattern: Option<string -> bool>): Result<bool> {
    if pattern.Some? then
      if MottoColumn !in r.fields then Err(KeyError)
      else if r.fields[MottoColumn].Str? then Ok(pattern.value(r.fields[MottoColumn].s))
      else Err(TypeError)
    else if Present(search) then
      if MottoColumn !in r.fields then Err(KeyError)
      else if r.fields[MottoColumn].Str? then Ok(Text.Contains(Text.Lower(r.fields[MottoColumn].s), Text.Lower(search.value)))
      else Err(AttributeError)
    else Ok(true)
  }

  function Candidates(records: seq<Record>, search: Option<string>, pattern: Option<string -> bool>): (r: Result<seq<Record>>)
    ensures r.Ok? ==> forall x :: x in r.value ==> x in records && RandomFilter(x, search, pattern) == Ok(true)
    ensures r.Ok? ==> forall x :: x in records ==> RandomFilter(x, search, pattern).Ok?
    ensures r.Ok? ==> forall x :: x in records && RandomFilter(x, search, pattern) == Ok(true) ==> x in r.value
  {
    if records == [] then Ok([])
    else
      var keep :- RandomFilter(records[0], search, pattern);
      var rest :- Candidates(records[1..], search, pattern);
      assert forall x :: x in records ==> x == records[0] || x in records[1..];
      Ok((if keep then [records[0]] else []) + rest)
  }

  /** `get_random_motto`: the candidate at position `pick` (the random
      choice), with its nominee looked up in the Member table; `None` when
      no record passes the filter, and also when the chosen record cannot be
      read because its Member list is empty (the same `except IndexError`
      covers the filter, the choice and the decoding; the nominee lookup
      lies outside it). */
  function RandomMotto(records: seq<Record>, members: seq<Record>, search: Option<string>,
                       pattern: Option<string -> bool>, pick: nat): (r: Result<Option<Motto>>)
    ensures Candidates(records, search, pattern) == Ok([]) ==> r == Ok(None)
    ensures Candidates(records, search, pattern).Err? ==> r.Err?
    ensures r == Ok(None) ==> Candidates(records, search, pattern).Ok?
    ensures r == Ok(None) ==> var cs := Candidates(records, search, pattern).value;
      cs == [] || MottoFromAirtable(cs[pick % |cs|]) == Err(IndexError)
    ensures r.Ok? && r.value.Some? ==> exists x :: (x in records && x.id == r.value.value.primaryKey
      && RandomFilter(x, search, pattern) == Ok(true))
    ensures r.Ok? && r.value.Some? ==> r.value.value.member.Linked?
  {
    var candidates :- Candidates(records, search, pattern);
    if candidates == [] then Ok(None)
    else
      var chosen := candidates[pick % |candidates|];
      match MottoFromAirtable(chosen)
      case Err(IndexError) => Ok(None)
      case Err(e) => Err(e)
      case Ok(m) =>
        var nominee :- MemberByKey(members, m.member.key);
        Ok(Some(m.(member := Linked(nominee))))
  }

  /** A stored motto whose Member list is empty reads as "no motto", not
      as an error. */
  lemma EmptyNomineeListGivesNothing(id: string, text: string, date: int, search: Option<string>, pick: nat)
    requires !Present(search)
    ensures RandomMotto([Record(Some(id), map[DateColumn := Int(date), MottoColumn := Str(text), MemberColumn := List([])])],
                        [], search, None, pick) == Ok(None)
  {
    var rec := Record(Some(id), map[DateColumn := Int(date), MottoColumn := Str(text), MemberColumn := List([])]);
    assert RandomFilter(rec, search, None) == Ok(true);
    assert [rec][1..] == [];
    assert Candidates([], search, None) == Ok([]);
    assert [rec] + [] == [rec];
    assert Candidates([rec], search, None) == Ok([rec]);
    assert MottoFromAirtable(rec) == Err(IndexError);
  }

  /** `get_member(pk=...)`: a falsy key names nobody and raises; a key the
      Member table holds gives that record's member; any other key is
      refused by the store. */
  function MemberByKey(members: seq<Record>, key: Value): (r: Result<Member>)
    ensures !Truthy(key) ==> r == Err(TypeError)
    ensures Truthy(key) && !(key.Str? && exists i :: 0 <= i < |members| && members[i].id == Some(key.s)) ==>
      r == Err(StoreError)
    ensures Truthy(key) && key.Str? && (exists i :: 0 <= i < |members| && members[i].id == Some(key.s)) ==>
      exists i :: 0 <= i < |members| && members[i].id == Some(key.s) && r == MemberFromAirtable(members[i])
    decreases |members|
  {
    if !Truthy(key) then Err(TypeError)
    else if members == [] then Err(StoreError)
    else if key.Str? && members[0].id == Some(key.s) then MemberFromAirtable(members[0])
    else
      var r := MemberByKey(members[1..], key);
      assert forall i :: 1 <= i < |members| ==> members[i] == members[1..][i - 1];
      r
  }

  /** With a search pattern, the search text plays no part. */
  lemma PatternTakesPrecedence(records: seq<Record>, members: seq<Record>, s1: Option<string>, s2: Option<string>,
                               pattern: string -> bool, pick: nat)
    ensures RandomMotto(records, members, s1, Some(pattern), pick) == RandomMotto(records, members, s2, Some(pattern), pick)
  {
    CandidatesIgnoreSearch(records, s1, s2, pattern);
  }

  lemma {:induction false} CandidatesIgnoreSearch(records: seq<Record>, s1: Option<string>, s2: Option<string>, pattern: string -> bool)
    ensures Candidates(records, s1, Some(pattern)) == Candidates(records, s2, Some(pattern))
    decreases |records|
  {
    if records != [] {
      CandidatesIgnoreSearch(records[1..], s1, s2, pattern);
    }
  }

  /** The search text is matched without regard to its case. */
  lemma SearchIgnoresCase(records: seq<Record>, members: seq<Record>, search: string, pick: nat)
    ensures RandomMotto(records, members, Some(Text.Lower(search)), None, pick) == RandomMotto(records, members, Some(search), None, pick)
  {
    Text.LowerIdempotent(search);
    CandidatesIgnoreCase(records, search);
  }

  lemma {:induction false} CandidatesIgnoreCase(records: seq<Record>, search: string)
    requires Text.Lower(Text.Lower(search)) == Text.Lower(search)
    ensures Candidates(records, Some(Text.Lower(search)), None) == Candidates(records, Some(search), None)
    decreases |records|
  {
    if records != [] {
      CandidatesIgnoreCase(records[1..], search);
    }
  }
}
