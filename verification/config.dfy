/** Reading the bot's configuration: five sections with defaults, each merged
    shallowly with what the configuration file supplies, and the reply switch. */
module Config {
  import opened Common

  const Authentication := "authentication"
  const Rules := "rules"
  const Channels := "channels"
  const Reactions := "reactions"
  const Triggers := "triggers"
  const ShouldReply := "should_reply"

  /** The sections, in the order they are merged. */
  const Sections: seq<string> := [Authentication, Channels, Reactions, Triggers, Rules]

  /** The keys every parsed configuration holds. */
  const ParsedKeys: set<string> := {Authentication, Channels, Reactions, Triggers, Rules, ShouldReply}

  /** The built-in contents of each section. */
  function DefaultSection(key: string): map<string, Value> {
    if key == Authentication then
      map["discord" := Str(""), "airtable_key" := Str(""), "airtable_base" := Str("")]
    else if key == Rules then
      map["min_words" := Int(2), "min_chars" := Int(5), "max_chars" := Int(240)]
    else if key == Channels then
      map["include" := List([]), "exclude" := List([])]
    else if key == Triggers then
      map["new_motto" := List([Str("!motto")])]
    else
      map[]
  }

  /** Python's `d.update(arg)`: a dict overrides key by key; any other
      iterable must yield key/value pairs; anything else is refused. */
  function Update(base: map<string, Value>, arg: Value): (r: Result<map<string, Value>>)
    ensures arg.Dict? ==> r == Ok(base + arg.entries)
    ensures arg.Null? || arg.Bool? || arg.Int? ==> r == Err(TypeError)
    ensures arg.Str? ==> r == if arg.s == "" then Ok(base) else Err(ValueError)
  {
    match arg
    case Dict(d) => Ok(base + d)
    case List(xs) => UpdatePairs(base, xs)
    case Str(s) => if s == "" then Ok(base) else Err(ValueError)
    case _ => Err(TypeError)
  }

  /** Applies a sequence of pairs left to right; the first element that is
      not a pair aborts the update. */
  function UpdatePairs(base: map<string, Value>, xs: seq<Value>): (r: Result<map<string, Value>>)
    ensures r.Ok? ==> base.Keys <= r.value.Keys
    decreases |xs|
  {
    if xs == [] then Ok(base)
    else
      var (k, v) :- Pair(xs[0]);
      UpdatePairs(base[k := v], xs[1..])
  }

  /** One element of an update sequence read as a key/value pair: a
      two-element list with a string key, or a two-character string. Any
      other iterable of the wrong length raises ValueError; a dict of two
      keys, and a list whose key is not a string, are refused (see the
      README). */
  function Pair(x: Value): (r: Result<(string, Value)>)
    ensures r.Ok? <==> (x.List? && |x.items| == 2 && x.items[0].Str?) || (x.Str? && |x.s| == 2)
    ensures r.Ok? && x.List? ==> r.value == (x.items[0].s, x.items[1])
    ensures x.Dict? && |x.entries.Keys| != 2 ==> r == Err(ValueError)
  {
    match x
    case List(ys) =>
      if |ys| != 2 then Err(ValueError)
      else if ys[0].Str? then Ok((ys[0].s, ys[1]))
      else Err(TypeError)
    case Str(s) => if |s| == 2 then Ok(([s[0]], Str([s[1]]))) else Err(ValueError)
    case Dict(d) => if |d.Keys| != 2 then Err(ValueError) else Err(TypeError)
    case _ => Err(TypeError)
  }

  /** Whether a section value can be merged. */
  predicate Mergeable(v: Value) {
    Update(map[], v).Ok?
  }

  /** A section's merged contents. */
  function Section(config: map<string, Value>, key: string): Result<map<string, Value>> {
    if key in config then Update(DefaultSection(key), config[key]) else Ok(DefaultSection(key))
  }

  /** `config.parse`: every section merged with its defaults, `should_reply`
      taken from the input when present and true otherwise, and every other
      input key dropped. */
  function Parse(config: map<string, Value>): (r: Result<map<string, Value>>)
    ensures r.Ok? ==> r.value.Keys == ParsedKeys
    ensures r.Ok? ==> r.value[ShouldReply] == if ShouldReply in config then config[ShouldReply] else Bool(true)
    ensures r.Ok? ==> forall key :: key in Sections ==> Section(config, key).Ok? && r.value[key] == Dict(Section(config, key).value)
    ensures r.Ok? <==> forall key :: key in Sections ==> Section(config, key).Ok?
  {
    var authentication :- Section(config, Authentication);
    var channels :- Section(config, Channels);
    var reactions :- Section(config, Reactions);
    var triggers :- Section(config, Triggers);
    var rules :- Section(config, Rules);
    Ok(map[
      Authentication := Dict(authentication), Channels := Dict(channels),
      Reactions := Dict(reactions), Triggers := Dict(triggers), Rules := Dict(rules),
      ShouldReply := if ShouldReply in config then config[ShouldReply] else Bool(true)])
  }

  /** Whether an update succeeds does not depend on what it updates. */
  lemma {:induction false} UpdateOkIndependent(a: map<string, Value>, b: map<string, Value>, xs: seq<Value>)
    ensures UpdatePairs(a, xs).Ok? <==> UpdatePairs(b, xs).Ok?
    decreases |xs|
  {
    if xs != [] && Pair(xs[0]).Ok? {
      var (k, v) := Pair(xs[0]).value;
      UpdateOkIndependent(a[k := v], b[k := v], xs[1..]);
    }
  }

  /** A section given as a dict keeps every default key it does not name and
      takes every key it names from the input. */
  lemma SectionMerge(config: map<string, Value>, key: string)
    requires key in Sections && key in config && config[key].Dict?
    ensures Parse(config).Ok? ==> Parse(config).value[key].Dict?
    ensures Parse(config).Ok? ==> forall k :: k in config[key].entries ==>
      k in Parse(config).value[key].entries && Parse(config).value[key].entries[k] == config[key].entries[k]
    ensures Parse(config).Ok? ==> forall k :: k in DefaultSection(key) && k !in config[key].entries ==>
      k in Parse(config).value[key].entries && Parse(config).value[key].entries[k] == DefaultSection(key)[k]
  {
  }

  /** A section fails to parse exactly when its value cannot be merged. */
  lemma ParseFailsOnBadSection(config: map<string, Value>)
    ensures Parse(config).Ok? <==> forall key :: key in Sections && key in config ==> Mergeable(config[key])
  {
    forall key | key in Sections && key in config
      ensures Section(config, key).Ok? <==> Mergeable(config[key])
    {
      var v := config[key];
      if v.List? {
        UpdateOkIndependent(DefaultSection(key), map[], v.items);
      }
    }
  }

  /** An empty configuration parses to the built-in defaults. */
  lemma DefaultsOfEmpty()
    ensures Parse(map[]).Ok?
    ensures Parse(map[]).value[Rules] == Dict(map["min_words" := Int(2), "min_chars" := Int(5), "max_chars" := Int(240)])
    ensures Parse(map[]).value[Triggers] == Dict(map["new_motto" := List([Str("!motto")])])
    ensures Parse(map[]).value[Channels] == Dict(map["include" := List([]), "exclude" := List([])])
    ensures Parse(map[]).value[Reactions] == Dict(map[])
    ensures Parse(map[]).value[ShouldReply] == Bool(true)
  {
  }

  /** Parsing a parsed configuration changes nothing. */
  lemma ParseIdempotent(config: map<string, Value>)
    requires Parse(config).Ok?
    ensures Parse(Parse(config).value) == Parse(config)
  {
    var p := Parse(config).value;
    forall key | key in Sections
      ensures Section(p, key) == Section(config, key)
    {
      var merged := Section(config, key).value;
      assert p[key] == Dict(merged);
      assert DefaultSection(key).Keys <= merged.Keys by {
        if key in config && config[key].List? {
          assert UpdatePairs(DefaultSection(key), config[key].items).Ok?;
        }
      }
      assert DefaultSection(key) + merged == merged;
    }
  }
}
