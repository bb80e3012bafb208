/** The two stored entities, Motto and Member, and their conversion to and
    from the store's record layout (a record id plus named fields). */
module Models {
  import opened Common
  import Text

  /** A tracked chat user, as read back from the Member table. */
  datatype Member = Member(
    primaryKey: Option<string>,
    username: Option<string>,
    emoji: Option<string>,
    discordId: Option<string>,
    support: bool,
    nickname: Option<string>,
    useNickname: bool,
    mottoCount: int,
    botId: Option<string>,
    mottos: seq<string>)

  /** A Motto's nominee or nominator: either a Member object or the raw
      field value it was read from (normally the Member's record id). */
  datatype MemberRef = Linked(record: Member) | Key(key: Value)

  /** A candidate or accepted submission. */
  datatype Motto = Motto(
    primaryKey: Option<string>,
    motto: Option<string>,
    messageId: Option<string>,
    date: Option<int>,
    member: MemberRef,
    nominatedBy: MemberRef,
    approvedByAuthor: Option<bool>,
    approved: Option<bool>,
    botId: Option<string>)

  /** One row of a table in the store: its id and its named fields. */
  datatype Record = Record(id: Option<string>, fields: map<Column, Value>)

  /** The columns of the Motto and Member tables. */
  datatype Column =
    | MottoColumn | MessageIdColumn | DateColumn | MemberColumn | NominatedByColumn
    | ApprovedByAuthorColumn | ApprovedColumn | BotIdColumn
    | UsernameColumn | EmojiColumn | DiscordIdColumn | SupportColumn | NicknameColumn
    | UseNicknameColumn | MottoCountColumn | MottosColumn

  const MottoAttributes: seq<string> :=
    ["primary_key", "motto", "message_id", "date", "member", "nominated_by",
     "approved_by_author", "approved", "bot_id"]

  /** The attributes a Motto can be asked to save. */
  datatype Attribute =
    | PrimaryKeyAttribute | MottoAttribute | MessageIdAttribute | DateAttribute
    | MemberAttribute | NominatedByAttribute | ApprovedByAuthorAttribute
    | ApprovedAttribute | BotIdAttribute

  const MemberAttributes: seq<string> :=
    ["primary_key", "username", "emoji", "discord_id", "support", "nickname",
     "use_nickname", "motto_count", "bot_id", "mottos"]

  /** The generic constructor shared by both models: every listed attribute
      takes its keyword argument, or `None` when none was given; keyword
      arguments that name no attribute are dropped. */
  function Construct(attributes: seq<string>, kwargs: map<string, Value>): (obj: map<string, Value>)
    ensures forall a :: a in attributes <==> a in obj
    ensures forall a :: a in attributes && a in kwargs ==> obj[a] == kwargs[a]
    ensures forall a :: a in attributes && a !in kwargs ==> obj[a] == Null
  {
    map a | a in attributes :: if a in kwargs then kwargs[a] else Null
  }

  // ---------------------------------------------------------------------
  // Reading fields. A field whose value has a type the entity does not
  // allow is rejected with a TypeError.

  function FieldStr(f: map<Column, Value>, k: Column): Result<Option<string>> {
    if k !in f then Ok(None)
    else match f[k]
      case Null => Ok(None)
      case Str(s) => Ok(Some(s))
      case _ => Err(TypeError)
  }

  function FieldFlag(f: map<Column, Value>, k: Column): Result<Option<bool>> {
    if k !in f then Ok(None)
    else match f[k]
      case Null => Ok(None)
      case Bool(b) => Ok(Some(b))
      case _ => Err(TypeError)
  }

  function FieldBoolOr(f: map<Column, Value>, k: Column, default: bool): Result<bool> {
    if k !in f then Ok(default)
    else match f[k]
      case Bool(b) => Ok(b)
      case _ => Err(TypeError)
  }

  function FieldIntOr(f: map<Column, Value>, k: Column, default: int): Result<int> {
    if k !in f then Ok(default)
    else match f[k]
      case Int(i) => Ok(i)
      case _ => Err(TypeError)
  }

  function StrItems(xs: seq<Value>): (r: Result<seq<string>>)
    ensures r.Ok? <==> forall i :: 0 <= i < |xs| ==> xs[i].Str?
    ensures r.Ok? ==> |r.value| == |xs| && forall i :: 0 <= i < |xs| ==> xs[i] == Str(r.value[i])
  {
    if xs == [] then Ok([])
    else match xs[0]
      case Str(s) =>
        var rest :- StrItems(xs[1..]);
        Ok([s] + rest)
      case _ => Err(TypeError)
  }

  function FieldStrList(f: map<Column, Value>, k: Column): Result<seq<string>> {
    if k !in f then Ok([])
    else match f[k]
      case List(xs) => StrItems(xs)
      case _ => Err(TypeError)
  }

  /** `fields.get(k, [None])[0]`: the first element of a list field, the
      first character of a string field, `None` when the field is absent. */
  function FirstOf(f: map<Column, Value>, k: Column): Result<Value> {
    if k !in f then Ok(Null)
    else match f[k]
      case List(xs) => if xs == [] then Err(IndexError) else Ok(xs[0])
      case Str(s) => if s == "" then Err(IndexError) else Ok(Str([s[0]]))
      case _ => Err(TypeError)
  }

  /** Reading DateColumn: the field must be present; timestamps are integers,
      and any string is a date the parser rejects (read as no date). */
  function ParseDate(f: map<Column, Value>): Result<Option<int>> {
    if DateColumn !in f then Err(KeyError)
    else match f[DateColumn]
      case Int(t) => Ok(Some(t))
      case Str(_) => Ok(None)
      case _ => Err(TypeError)
  }

  // ---------------------------------------------------------------------
  // Motto <-> record

  /** Reads a Motto record. The date must be present; the nominee and
      nominator are read as the first element of their fields. */
  function MottoFromAirtable(r: Record): (m: Result<Motto>)
    ensures m.Ok? ==> m.value.primaryKey == r.id && m.value.member.Key? && m.value.nominatedBy.Key?
    ensures DateColumn !in r.fields ==> m == Err(KeyError)
  {
    var date :- ParseDate(r.fields);
    var motto :- FieldStr(r.fields, MottoColumn);
    var messageId :- FieldStr(r.fields, MessageIdColumn);
    var member :- FirstOf(r.fields, MemberColumn);
    var nominator :- FirstOf(r.fields, NominatedByColumn);
    var byAuthor :- FieldFlag(r.fields, ApprovedByAuthorColumn);
    var approved :- FieldFlag(r.fields, ApprovedColumn);
    var botId :- FieldStr(r.fields, BotIdColumn);
    Ok(Motto(r.id, motto, messageId, date, Key(member), Key(nominator), byAuthor, approved, botId))
  }

  /** The fields a Motto is stored in; the primary key is the record id. */
  const MottoColumns: seq<Column> :=
    [MottoColumn, MessageIdColumn, DateColumn, MemberColumn, NominatedByColumn, ApprovedByAuthorColumn,
     ApprovedColumn, BotIdColumn]

  /** The attribute each field holds. */
  function AttributeOf(column: Column): Attribute {
    match column
    case MottoColumn => MottoAttribute
    case MessageIdColumn => MessageIdAttribute
    case DateColumn => DateAttribute
    case MemberColumn => MemberAttribute
    case NominatedByColumn => NominatedByAttribute
    case ApprovedByAuthorColumn => ApprovedByAuthorAttribute
    case ApprovedColumn => ApprovedAttribute
    case _ => BotIdAttribute
  }

  /** A nominee or nominator reference as stored: the Member's key. */
  function RefKey(ref: MemberRef): Value {
    match ref
    case Linked(m) => OptStr(m.primaryKey)
    case Key(v) => v
  }

  /** Whether an attribute is saved: `fields if fields else attributes`,
      where every attribute is listed in `attributes`. */
  predicate Requested(fields: seq<Attribute>, a: Attribute) {
    fields == [] || a in fields
  }

  function ColumnValue(m: Motto, column: Column): Value {
    match column
    case MottoColumn => OptStr(m.motto)
    case MessageIdColumn => OptStr(m.messageId)
    case DateColumn => if m.date.Some? then Int(m.date.value) else Null
    case MemberColumn => List([RefKey(m.member)])
    case NominatedByColumn => List([RefKey(m.nominatedBy)])
    case ApprovedByAuthorColumn => OptBool(m.approvedByAuthor)
    case ApprovedColumn => OptBool(m.approved)
    case _ => OptStr(m.botId)
  }

  /** Serialises the requested attributes (all of them when none are
      requested). A requested date that is missing cannot be formatted. */
  function MottoToAirtable(m: Motto, fields: seq<Attribute>): (r: Result<Record>)
    ensures r.Ok? <==> (Requested(fields, DateAttribute) ==> m.date.Some?)
    ensures r.Ok? ==> r.value.id == m.primaryKey
    ensures r.Ok? ==> forall c :: c in r.value.fields ==> r.value.fields[c] == ColumnValue(m, c)
    ensures r.Ok? ==> forall c :: c in r.value.fields <==> c in MottoColumns && Requested(fields, AttributeOf(c))
  {
    if Requested(fields, DateAttribute) && m.date.None? then Err(AttributeError)
    else
      Ok(Record(m.primaryKey, Columns(m, fields)))
  }

  /** The requested columns and their values. */
  function Columns(m: Motto, fields: seq<Attribute>): map<Column, Value> {
    map c | c in MottoColumns && Requested(fields, AttributeOf(c)) :: ColumnValue(m, c)
  }

  /** Reading back a fully serialised Motto recovers every attribute; the
      nominee and nominator come back as their stored keys. */
  lemma MottoRoundTrip(m: Motto)
    requires m.date.Some?
    ensures MottoToAirtable(m, []).Ok?
    ensures MottoFromAirtable(MottoToAirtable(m, []).value)
      == Ok(m.(member := Key(RefKey(m.member)), nominatedBy := Key(RefKey(m.nominatedBy))))
  {
    FullColumns(m);
    var r := MottoToAirtable(m, []).value;
    DecodeColumns(r, m);
  }

  /** With no attributes requested, every Motto column is written. */
  lemma FullColumns(m: Motto)
    requires m.date.Some?
    ensures MottoToAirtable(m, []).Ok?
    ensures MottoToAirtable(m, []).value.id == m.primaryKey
    ensures HoldsColumns(MottoToAirtable(m, []).value.fields, m)
  {
    FullColumn(m, MottoColumn);
    FullColumn(m, MessageIdColumn);
    FullColumn(m, DateColumn);
    FullColumn(m, MemberColumn);
    FullColumn(m, NominatedByColumn);
    FullColumn(m, ApprovedByAuthorColumn);
    FullColumn(m, ApprovedColumn);
    FullColumn(m, BotIdColumn);
  }

  lemma FullColumn(m: Motto, c: Column)
    requires m.date.Some? && c in MottoColumns
    ensures MottoToAirtable(m, []).Ok?
    ensures c in MottoToAirtable(m, []).value.fields
    ensures MottoToAirtable(m, []).value.fields[c] == ColumnValue(m, c)
  {
  }

  /** `f` holds every Motto column of `m` with its stored value. */
  predicate HoldsColumns(f: map<Column, Value>, m: Motto) {
    forall c :: c in MottoColumns ==> c in f && f[c] == ColumnValue(m, c)
  }

  /** A record holding every Motto column decodes to the Motto. */
  lemma DecodeColumns(r: Record, m: Motto)
    requires m.date.Some? && r.id == m.primaryKey && HoldsColumns(r.fields, m)
    ensures MottoFromAirtable(r)
      == Ok(m.(member := Key(RefKey(m.member)), nominatedBy := Key(RefKey(m.nominatedBy))))
  {
    ReadTextColumns(r.fields, m);
    ReadOtherColumns(r.fields, m);
    DecodeMotto(r, m.(member := Key(RefKey(m.member)), nominatedBy := Key(RefKey(m.nominatedBy))));
  }

  lemma ReadTextColumns(f: map<Column, Value>, m: Motto)
    requires m.date.Some? && HoldsColumns(f, m)
    ensures ParseDate(f) == Ok(m.date)
    ensures FieldStr(f, MottoColumn) == Ok(m.motto)
    ensures FieldStr(f, MessageIdColumn) == Ok(m.messageId)
    ensures FieldStr(f, BotIdColumn) == Ok(m.botId)
  {
    assert MottoColumns[0] == MottoColumn && MottoColumns[1] == MessageIdColumn && MottoColumns[2] == DateColumn;
    assert MottoColumns[7] == BotIdColumn;
    ReadBack(f, MottoColumn, m.motto);
    ReadBack(f, MessageIdColumn, m.messageId);
    ReadBack(f, BotIdColumn, m.botId);
  }

  lemma ReadOtherColumns(f: map<Column, Value>, m: Motto)
    requires HoldsColumns(f, m)
    ensures FirstOf(f, MemberColumn) == Ok(RefKey(m.member))
    ensures FirstOf(f, NominatedByColumn) == Ok(RefKey(m.nominatedBy))
    ensures FieldFlag(f, ApprovedByAuthorColumn) == Ok(m.approvedByAuthor)
    ensures FieldFlag(f, ApprovedColumn) == Ok(m.approved)
  {
    assert MottoColumns[3] == MemberColumn && MottoColumns[4] == NominatedByColumn;
    assert MottoColumns[5] == ApprovedByAuthorColumn && MottoColumns[6] == ApprovedColumn;
    ReadBackFlag(f, ApprovedByAuthorColumn, m.approvedByAuthor);
    ReadBackFlag(f, ApprovedColumn, m.approved);
  }

  lemma DecodeMotto(r: Record, m: Motto)
    requires m.primaryKey == r.id && m.member.Key? && m.nominatedBy.Key?
    requires ParseDate(r.fields) == Ok(m.date)
    requires FieldStr(r.fields, MottoColumn) == Ok(m.motto)
    requires FieldStr(r.fields, MessageIdColumn) == Ok(m.messageId)
    requires FirstOf(r.fields, MemberColumn) == Ok(m.member.key)
    requires FirstOf(r.fields, NominatedByColumn) == Ok(m.nominatedBy.key)
    requires FieldFlag(r.fields, ApprovedByAuthorColumn) == Ok(m.approvedByAuthor)
    requires FieldFlag(r.fields, ApprovedColumn) == Ok(m.approved)
    requires FieldStr(r.fields, BotIdColumn) == Ok(m.botId)
    ensures MottoFromAirtable(r) == Ok(m)
  {
  }

  lemma ReadBack(f: map<Column, Value>, k: Column, o: Option<string>)
    requires k in f && f[k] == OptStr(o)
    ensures FieldStr(f, k) == Ok(o)
  {
  }

  lemma ReadBackFlag(f: map<Column, Value>, k: Column, o: Option<bool>)
    requires k in f && f[k] == OptBool(o)
    ensures FieldFlag(f, k) == Ok(o)
  {
  }

  // ---------------------------------------------------------------------
  // Member

  /** Reads a Member record; absent fields take their defaults: not
      support, no nickname in use, no mottos. */
  function MemberFromAirtable(r: Record): (m: Result<Member>)
    ensures m.Ok? ==> m.value.primaryKey == r.id
    ensures m.Ok? && SupportColumn !in r.fields ==> !m.value.support
    ensures m.Ok? && UseNicknameColumn !in r.fields ==> !m.value.useNickname
    ensures m.Ok? && MottoCountColumn !in r.fields ==> m.value.mottoCount == 0
    ensures m.Ok? && MottosColumn !in r.fields ==> m.value.mottos == []
    ensures m.Ok? && UsernameColumn !in r.fields ==> m.value.username.None?
    ensures m.Ok? && NicknameColumn !in r.fields ==> m.value.nickname.None?
    ensures m.Ok? && EmojiColumn !in r.fields ==> m.value.emoji.None?
    ensures m.Ok? && DiscordIdColumn !in r.fields ==> m.value.discordId.None?
    ensures m.Ok? && BotIdColumn !in r.fields ==> m.value.botId.None?
    ensures m.Ok? && UsernameColumn in r.fields ==> r.fields[UsernameColumn] == OptStr(m.value.username)
    ensures m.Ok? && EmojiColumn in r.fields ==> r.fields[EmojiColumn] == OptStr(m.value.emoji)
    ensures m.Ok? && DiscordIdColumn in r.fields ==> r.fields[DiscordIdColumn] == OptStr(m.value.discordId)
    ensures m.Ok? && NicknameColumn in r.fields ==> r.fields[NicknameColumn] == OptStr(m.value.nickname)
    ensures m.Ok? && BotIdColumn in r.fields ==> r.fields[BotIdColumn] == OptStr(m.value.botId)
    ensures m.Ok? && SupportColumn in r.fields ==> r.fields[SupportColumn] == Bool(m.value.support)
    ensures m.Ok? && UseNicknameColumn in r.fields ==> r.fields[UseNicknameColumn] == Bool(m.value.useNickname)
    ensures m.Ok? && MottoCountColumn in r.fields ==> r.fields[MottoCountColumn] == Int(m.value.mottoCount)
    ensures m.Ok? && MottosColumn in r.fields ==> r.fields[MottosColumn] == StrList(m.value.mottos)
  {
    var emoji :- FieldStr(r.fields, EmojiColumn);
    var username :- FieldStr(r.fields, UsernameColumn);
    var discordId :- FieldStr(r.fields, DiscordIdColumn);
    var support :- FieldBoolOr(r.fields, SupportColumn, false);
    var nickname :- FieldStr(r.fields, NicknameColumn);
    var useNickname :- FieldBoolOr(r.fields, UseNicknameColumn, false);
    var count :- FieldIntOr(r.fields, MottoCountColumn, 0);
    var botId :- FieldStr(r.fields, BotIdColumn);
    var mottos :- FieldStrList(r.fields, MottosColumn);
    Ok(Member(r.id, username, emoji, discordId, support, nickname, useNickname, count, botId, mottos))
  }

  /** A list of strings as a stored value. */
  function StrList(xs: seq<string>): (v: Value)
    ensures v.List? && |v.items| == |xs|
    ensures forall i :: 0 <= i < |xs| ==> v.items[i] == Str(xs[i])
  {
    List(seq(|xs|, i requires 0 <= i < |xs| => Str(xs[i])))
  }

  /** `fields.get(k, default)`. */
  function FieldOr(f: map<Column, Value>, k: Column, default: Value): Value {
    if k in f then f[k] else default
  }

  /** The keyword argument `Member.from_airtable` passes for attribute
      `a`, read from the record (a field's default when it is absent). */
  function MemberKeyword(r: Record, a: string): Value {
    if a == "primary_key" then OptStr(r.id)
    else if a == "username" then FieldOr(r.fields, UsernameColumn, Null)
    else if a == "emoji" then FieldOr(r.fields, EmojiColumn, Null)
    else if a == "discord_id" then FieldOr(r.fields, DiscordIdColumn, Null)
    else if a == "support" then FieldOr(r.fields, SupportColumn, Bool(false))
    else if a == "nickname" then FieldOr(r.fields, NicknameColumn, Null)
    else if a == "use_nickname" then FieldOr(r.fields, UseNicknameColumn, Bool(false))
    else if a == "motto_count" then FieldOr(r.fields, MottoCountColumn, Int(0))
    else if a == "bot_id" then FieldOr(r.fields, BotIdColumn, Null)
    else if a == "mottos" then FieldOr(r.fields, MottosColumn, List([]))
    else Null
  }

  /** The keyword arguments `Member.from_airtable` hands the constructor:
      one per attribute. */
  function MemberKeywords(r: Record): map<string, Value> {
    map a | a in MemberAttributes :: MemberKeyword(r, a)
  }

  /** The value a Member holds for attribute `a`. */
  function MemberValue(m: Member, a: string): Value {
    if a == "primary_key" then OptStr(m.primaryKey)
    else if a == "username" then OptStr(m.username)
    else if a == "emoji" then OptStr(m.emoji)
    else if a == "discord_id" then OptStr(m.discordId)
    else if a == "support" then Bool(m.support)
    else if a == "nickname" then OptStr(m.nickname)
    else if a == "use_nickname" then Bool(m.useNickname)
    else if a == "motto_count" then Int(m.mottoCount)
    else if a == "bot_id" then OptStr(m.botId)
    else if a == "mottos" then StrList(m.mottos)
    else Null
  }

  /** A Member's attributes, each under its attribute name. */
  function MemberObject(m: Member): map<string, Value> {
    map a | a in MemberAttributes :: MemberValue(m, a)
  }

  /** When every attribute is given and nothing else, the constructor
      keeps exactly the keywords. */
  lemma ConstructAllGiven(attributes: seq<string>, kwargs: map<string, Value>)
    requires forall a :: a in attributes <==> a in kwargs
    ensures Construct(attributes, kwargs) == kwargs
  {
    var obj := Construct(attributes, kwargs);
    assert obj.Keys == kwargs.Keys;
  }

  /** Each keyword `from_airtable` passes is the value the typed reading
      keeps for that attribute. */
  lemma MemberKeywordsRead(r: Record)
    requires MemberFromAirtable(r).Ok?
    ensures MemberKeywords(r) == MemberObject(MemberFromAirtable(r).value)
  {
    var m := MemberFromAirtable(r).value;
    if MottosColumn !in r.fields {
      assert StrList(m.mottos) == List([]);
    }
    forall a | a in MemberAttributes
      ensures MemberKeyword(r, a) == MemberValue(m, a)
    {
    }
  }

  /** The typed reading of a Member record agrees with the generic
      constructor applied to the keywords `from_airtable` passes: every
      attribute is given, so none falls back to `None`, and each holds the
      value the record's field (or its default) supplies. */
  lemma MemberFromAirtableConstructs(r: Record)
    requires MemberFromAirtable(r).Ok?
    ensures Construct(MemberAttributes, MemberKeywords(r)) == MemberObject(MemberFromAirtable(r).value)
  {
    var kw := MemberKeywords(r);
    assert forall a :: a in MemberAttributes <==> a in kw;
    ConstructAllGiven(MemberAttributes, kw);
    MemberKeywordsRead(r);
  }

  /** The name shown on the leaderboard: the emoji and a space when an emoji
      is set, then the nickname when one is set and in use, otherwise the
      username. */
  function DisplayName(m: Member): (r: string)
    ensures Present(m.emoji) ==> Text.StartsWith(r, m.emoji.value + " ")
    ensures !Present(m.emoji) ==> r == ShownName(m)
    ensures Text.EndsWith(r, ShownName(m))
  {
    var prefix := if Present(m.emoji) then m.emoji.value + " " else "";
    prefix + ShownName(m)
  }

  function ShownName(m: Member): string {
    if Present(m.nickname) && m.useNickname then m.nickname.value else Show(m.username)
  }

  /** With the nickname option off, the stored nickname never shows. */
  lemma DisplayNameIgnoresNicknameWhenOff(m: Member, nickname: Option<string>)
    requires !m.useNickname
    ensures DisplayName(m.(nickname := nickname)) == DisplayName(m)
    ensures Text.EndsWith(DisplayName(m), Show(m.username))
  {
  }

  /** With the option on and a nickname stored, the username never shows. */
  lemma DisplayNameIgnoresUsernameWhenNicknameShown(m: Member, username: Option<string>)
    requires m.useNickname && Present(m.nickname)
    ensures DisplayName(m.(username := username)) == DisplayName(m)
    ensures Text.EndsWith(DisplayName(m), m.nickname.value)
  {
  }
}
