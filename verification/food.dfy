/** The food-reaction table: categories of trigger emoji, each with the
    reactions to answer them with, flattened into one lookup from trigger to
    reactions. */
module Food {
  import opened Common

  /** A configured response: a literal emoji, or one of the two special
      actions (echo the trigger back, throw a party). */
  datatype FoodResponse = Literal(emoji: string) | Echo | Party

  /** A category's triggers: a list of emoji, or a single string that is one
      trigger however many characters it has. */
  datatype Triggers = Many(items: seq<string>) | One(item: string)

  datatype Category = Category(name: string, triggers: Triggers, responses: seq<string>)

  /** The lookup, with its keys in insertion order (the order a Python dict
      iterates them in). */
  datatype Lookup = Lookup(keys: seq<string>, table: map<string, seq<FoodResponse>>)

  /** `convert_response`: exactly "echo" and "party" name special actions. */
  function ConvertResponse(response: string): (r: FoodResponse)
    ensures r == Echo <==> response == "echo"
    ensures r == Party <==> response == "party"
    ensures r.Literal? ==> r.emoji == response
  {
    if response == "echo" then Echo
    else if response == "party" then Party
    else Literal(response)
  }

  function ConvertAll(responses: seq<string>): (r: seq<FoodResponse>)
    ensures |r| == |responses|
    ensures forall i :: 0 <= i < |r| ==> r[i] == ConvertResponse(responses[i])
  {
    seq(|responses|, i requires 0 <= i < |responses| => ConvertResponse(responses[i]))
  }

  function TriggerList(t: Triggers): seq<string> {
    match t
    case Many(items) => items
    case One(item) => [item]
  }

  /** The lookup's invariant: the keys are listed once each, and they are
      exactly the table's domain. */
  ghost predicate Valid(l: Lookup) {
    && (forall i, j :: 0 <= i < j < |l.keys| ==> l.keys[i] != l.keys[j])
    && (forall k :: k in l.table <==> k in l.keys)
  }

  /** `lookup.update({k: v})`: a new key goes to the end; an existing key
      keeps its place and takes the new value. */
  function Insert(l: Lookup, k: string, v: seq<FoodResponse>): (r: Lookup)
    ensures r.table == l.table[k := v]
    ensures Valid(l) ==> Valid(r)
    ensures k in l.table ==> r.keys == l.keys
    ensures k !in l.table ==> r.keys == l.keys + [k]
  {
    if k in l.table then Lookup(l.keys, l.table[k := v]) else Lookup(l.keys + [k], l.table[k := v])
  }

  /** Inserts every trigger of one category, in order. */
  function InsertAll(l: Lookup, ks: seq<string>, v: seq<FoodResponse>): (r: Lookup)
    ensures forall k :: k in r.table <==> k in l.table || k in ks
    ensures forall k :: k in r.table ==> r.table[k] == if k in ks then v else l.table[k]
    ensures Valid(l) ==> Valid(r)
    ensures |l.keys| <= |r.keys| && r.keys[..|l.keys|] == l.keys
    decreases |ks|
  {
    if ks == [] then l
    else
      var r := InsertAll(Insert(l, ks[0], v), ks[1..], v);
      assert r.keys[..|l.keys|] == r.keys[..|Insert(l, ks[0], v).keys|][..|l.keys|];
      r
  }

  /** `FoodLookups.__init__`: the first `n` categories folded into the
      lookup in order. */
  function Build(categories: seq<Category>, n: nat): (r: Lookup)
    requires n <= |categories|
    ensures Valid(r)
  {
    if n == 0 then Lookup([], map[])
    else
      var c := categories[n - 1];
      InsertAll(Build(categories, n - 1), TriggerList(c.triggers), ConvertAll(c.responses))
  }

  /** The responses a trigger gets by the "later category wins" rule: those
      of the last of the first `n` categories listing it. */
  function Winner(categories: seq<Category>, n: nat, k: string): Option<seq<string>>
    requires n <= |categories|
  {
    if n == 0 then None
    else if k in TriggerList(categories[n - 1].triggers) then Some(categories[n - 1].responses)
    else Winner(categories, n - 1, k)
  }

  /** A trigger is in the lookup exactly when some category lists it, and it
      maps to the converted responses of the last category that does. */
  lemma {:induction false} BuildLastWins(categories: seq<Category>, n: nat, k: string)
    requires n <= |categories|
    ensures k in Build(categories, n).table <==> Winner(categories, n, k).Some?
    ensures k in Build(categories, n).table ==> Build(categories, n).table[k] == ConvertAll(Winner(categories, n, k).value)
  {
    if n > 0 {
      var c := categories[n - 1];
      BuildLastWins(categories, n - 1, k);
      assert Build(categories, n) == InsertAll(Build(categories, n - 1), TriggerList(c.triggers), ConvertAll(c.responses));
    }
  }

  /** The lookup's keys are the union of all categories' triggers. */
  lemma {:induction false} BuildKeys(categories: seq<Category>, n: nat, k: string)
    requires n <= |categories|
    ensures k in Build(categories, n).table <==> exists i :: 0 <= i < n && k in TriggerList(categories[i].triggers)
  {
    BuildLastWins(categories, n, k);
    WinnerListed(categories, n, k);
  }

  /** Some category wins a trigger exactly when some category lists it. */
  lemma {:induction false} WinnerListed(categories: seq<Category>, n: nat, k: string)
    requires n <= |categories|
    ensures Winner(categories, n, k).Some? <==> exists i :: 0 <= i < n && k in TriggerList(categories[i].triggers)
  {
    if n > 0 {
      WinnerListed(categories, n - 1, k);
      if k !in TriggerList(categories[n - 1].triggers) {
        assert forall i :: 0 <= i < n && k in TriggerList(categories[i].triggers) ==> i < n - 1;
      }
    }
  }

  /** `food_chars`: the keys joined in insertion order. */
  function FoodChars(keys: seq<string>): (r: string)
    ensures forall i :: 0 <= i < |keys| ==> |keys[i]| <= |r|
  {
    if keys == [] then "" else keys[0] + FoodChars(keys[1..])
  }

  /** Where the `i`-th key starts in `food_chars`. */
  function KeyOffset(keys: seq<string>, i: nat): nat
    requires i <= |keys|
  {
    if i == 0 then 0 else KeyOffset(keys, i - 1) + |keys[i - 1]|
  }

  /** Every key of the lookup is spelled out inside `food_chars`, right after
      the keys before it. */
  lemma {:induction false} FoodCharsHoldsKeys(keys: seq<string>, i: nat)
    requires i < |keys|
    ensures KeyOffset(keys, i) + |keys[i]| <= |FoodChars(keys)|
    ensures FoodChars(keys)[KeyOffset(keys, i)..KeyOffset(keys, i) + |keys[i]|] == keys[i]
    decreases i
  {
    if i == 0 {
      assert FoodChars(keys)[0..|keys[0]|] == keys[0];
    } else {
      FoodCharsHoldsKeys(keys[1..], i - 1);
      OffsetShift(keys, i);
      var off := KeyOffset(keys[1..], i - 1);
      assert keys[1..][i - 1] == keys[i];
      assert FoodChars(keys) == keys[0] + FoodChars(keys[1..]);
      assert FoodChars(keys)[|keys[0]| + off..|keys[0]| + off + |keys[i]|] == FoodChars(keys[1..])[off..off + |keys[i]|];
    }
  }

  lemma {:induction false} OffsetShift(keys: seq<string>, i: nat)
    requires 0 < i <= |keys|
    ensures KeyOffset(keys, i) == |keys[0]| + KeyOffset(keys[1..], i - 1)
    decreases i
  {
    if i > 1 {
      OffsetShift(keys, i - 1);
      assert keys[1..][i - 2] == keys[i - 1];
    }
  }

  const Butter := "\U{1F9C8}"

  const Standard := Category("standard", Many([
        "\U{1F347}", "\U{1F348}", "\U{1F349}", "\U{1F34A}", "\U{1F34C}", "\U{1F34D}", "\U{1F96D}", "\U{1F34E}", "\U{1F34F}", "\U{1F350}",
        "\U{1F352}", "\U{1F353}", "\U{1FAD0}", "\U{1F95D}", "\U{1F345}", "\U{1FAD2}", "\U{1F965}", "\U{1F951}", "\U{1F954}", "\U{1F33D}",
        "\U{1F95C}", "\U{1F330}", "\U{1F35E}", "\U{1F950}", "\U{1F956}", "\U{1FAD3}", "\U{1F968}", "\U{1F96F}", "\U{1F9C7}", "\U{1F356}",
        "\U{1F357}", "\U{1F953}", "\U{1F354}", "\U{1F355}", "\U{1F32D}", "\U{1F35F}", "\U{1F96A}", "\U{1F32E}", "\U{1F32F}", "\U{1FAD4}",
        "\U{1F9C6}", "\U{1F373}", "\U{1F37F}", "\U{1F9C8}", "\U{1F358}", "\U{1F359}", "\U{1F360}", "\U{1F362}", "\U{1F96E}", "\U{1F361}",
        "\U{1F95F}", "\U{1F960}", "\U{1F9AA}", "\U{1F369}", "\U{1F36A}", "\U{1F370}", "\U{1F9C1}", "\U{1F36C}", "\U{1F36D}", "\U{1F37C}",
        "\U{1F95B}", "\U{2615}", "\U{1F375}", "\U{1F964}", "\U{1F9CB}", "\U{1F9C3}", "\U{1F9C9}"]), ["\U{1F60B}", "echo"])
  const Chocolate := Category("chocolate", One("\U{1F36B}"), ["\U{1F60B}", "\U{1F36B}", "\U{1F49C}"])
  const Alcohol := Category("alcohol", Many([
        "\U{1F376}", "\U{1F37E}", "\U{1F377}", "\U{1F378}", "\U{1F379}", "\U{1F37A}", "\U{1F37B}", "\U{1F942}", "\U{1F943}"]), ["echo", "\U{1F974}"])
  const Teapot := Category("teapot", One("\U{1FAD6}"), ["\U{1F60B}", "\U{2615}"])
  const CutleryFoods := Category("cutlery_foods", Many([
        "\U{1F958}", "\U{1FAD5}", "\U{1F957}", "\U{1F35D}", "\U{1F967}", "\U{1F959}", "\U{1F95E}", "\U{1F969}"]), ["\U{1F60B}", "echo", "\U{1F374}"])
  const ChopstickFoods := Category("chopstick_foods", Many([
        "\U{1F372}", "\U{1F371}", "\U{1F35A}", "\U{1F35B}", "\U{1F35C}", "\U{1F363}", "\U{1F364}", "\U{1F365}", "\U{1F961}"]), ["\U{1F60B}", "echo", "\U{1F962}"])
  const SpoonFoods := Category("spoon_foods", Many([
        "\U{1F963}", "\U{1F367}", "\U{1F368}", "\U{1F36E}", "\U{1F36F}"]), ["\U{1F60B}", "echo", "\U{1F944}"])
  const TongueFoods := Category("tongue_foods", One("\U{1F366}"), ["\U{1F445}", "echo", "\U{1F60B}"])
  const RabbitFood := Category("rabbit_food", Many([
        "\U{1F96C}", "\U{1F955}"]), ["\U{1F430}"])
  const MouseFood := Category("mouse_food", One("\U{1F9C0}"), ["\U{1F42D}"])
  const WeirdFoods := Category("weird_foods", Many([
        "\U{1F34B}", "\U{1F346}", "\U{1F351}", "\U{1FAD1}", "\U{1F952}", "\U{1F966}", "\U{1F9C4}", "\U{1F9C5}", "\U{1F344}", "\U{1F95A}",
        "\U{1F9C8}"]), ["\U{1F615}"])
  const EyeRollFoods := Category("eye_roll_foods", Many([
        "\U{1F37D}\U{FE0F}"]), ["\U{1F644}"])
  const DangerousFoods := Category("dangerous_foods", Many([
        "\U{1F4A3}", "\U{1F9E8}", "\U{1F5E1}\U{FE0F}", "\U{1F52A}", "\U{1F9A0}", "\U{1F9EB}"]), ["\U{1F645}", "\U{1F628}"])
  const Nausea := Category("nausea", One("\U{1F6AC}"), ["\U{1F645}", "\U{1F922}"])
  const Vomit := Category("vomit", Many([
        "\U{1F41B}", "\U{1F41C}", "\U{1FAB2}", "\U{1F99F}", "\U{1F41E}", "\U{1F997}", "\U{1FAB0}"]), ["\U{1F922}", "\U{1F92E}", "\U{1F62D}"])
  const Bee := Category("bee", One("\U{1F41D}"), ["\U{1F645}", "echo", "\U{1F33B}", "\U{1F449}", "\U{1F36F}", "\U{1F60A}"])
  const Baby := Category("baby", One("\U{1F476}"), ["\U{1F645}", "\U{1F622}"])
  const Alien := Category("alien", One("\U{1F6F8}"), ["\U{1F47D}"])
  const Zombie := Category("zombie", One("\U{1F9E0}"), ["\U{1F9DF}"])
  const Vampire := Category("vampire", Many([
        "\U{1FA78}", "\U{1F18E}", "\U{1F171}\U{FE0F}", "\U{1F17E}\U{FE0F}", "\U{1F170}\U{FE0F}"]), ["\U{1F9DB}"])
  const Spicy := Category("spicy", One("\U{1F336}\U{FE0F}"), ["\U{1F975}"])
  const Ice := Category("ice", One("\U{1F9CA}"), ["\U{1F976}"])
  const Bone := Category("bone", One("\U{1F9B4}"), ["\U{1F436}"])
  const Celebrate := Category("celebrate", One("\U{1F382}"), ["\U{1F60B}", "party"])
  const Money := Category("money", Many([
        "\U{1F4B8}", "\U{1F4B0}", "\U{1F4B5}"]), ["\U{1F911}"])

  /** The default food configuration, in its order. */
  const DefaultCategories: seq<Category> := [
    Standard, Chocolate, Alcohol, Teapot, CutleryFoods, ChopstickFoods,
    SpoonFoods, TongueFoods, RabbitFood, MouseFood, WeirdFoods, EyeRollFoods,
    DangerousFoods, Nausea, Vomit, Bee, Baby, Alien,
    Zombie, Vampire, Spicy, Ice, Bone, Celebrate, Money]

  /** `lookup[item]` on the lookup built from all the categories; a missing
      item raises KeyError, modelled as `None`. */
  function LookupOf(categories: seq<Category>, item: string): Option<seq<FoodResponse>> {
    var t := Build(categories, |categories|).table;
    if item in t then Some(t[item]) else None
  }

  /** The lookup answers a trigger with the converted responses of the last
      category listing it, and a string no category lists with nothing. */
  lemma LookupIsWinner(categories: seq<Category>, item: string)
    ensures LookupOf(categories, item).Some? <==> Winner(categories, |categories|, item).Some?
    ensures LookupOf(categories, item).Some? ==>
      LookupOf(categories, item).value == ConvertAll(Winner(categories, |categories|, item).value)
  {
    BuildLastWins(categories, |categories|, item);
  }

  /** Butter is listed with the standard foods and again with the weird
      foods; it gets the weird foods' single response. */
  lemma ButterIsWeird()
    ensures LookupOf(DefaultCategories, Butter) == Some([Literal("\U{1F615}")])
  {
    ButterWinner();
    LookupIsWinner(DefaultCategories, Butter);
    assert ConvertAll(WeirdFoods.responses) == [Literal("\U{1F615}")];
  }

  /** Butter's winner is the weird foods (category 10): no later category
      lists it. */
  lemma ButterWinner()
    ensures |DefaultCategories| == 25
    ensures Winner(DefaultCategories, 25, Butter) == Some(WeirdFoods.responses)
  {
    ButterSkipsLast();
    ButterSkipsMiddle();
    ButterSkipsFirst();
  }

  lemma ButterSkipsLast()
    ensures Winner(DefaultCategories, 25, Butter) == Winner(DefaultCategories, 20, Butter)
  {
    var cats := DefaultCategories;
    assert Winner(cats, 25, Butter) == Winner(cats, 24, Butter) by { assert Butter !in TriggerList(cats[24].triggers); }
    assert Winner(cats, 24, Butter) == Winner(cats, 23, Butter) by { assert Butter !in TriggerList(cats[23].triggers); }
    assert Winner(cats, 23, Butter) == Winner(cats, 22, Butter) by { assert Butter !in TriggerList(cats[22].triggers); }
    assert Winner(cats, 22, Butter) == Winner(cats, 21, Butter) by { assert Butter !in TriggerList(cats[21].triggers); }
    assert Winner(cats, 21, Butter) == Winner(cats, 20, Butter) by { assert Butter !in TriggerList(cats[20].triggers); }
  }

  lemma ButterSkipsMiddle()
    ensures Winner(DefaultCategories, 20, Butter) == Winner(DefaultCategories, 15, Butter)
  {
    var cats := DefaultCategories;
    assert Winner(cats, 20, Butter) == Winner(cats, 19, Butter) by { assert Butter !in TriggerList(cats[19].triggers); }
    assert Winner(cats, 19, Butter) == Winner(cats, 18, Butter) by { assert Butter !in TriggerList(cats[18].triggers); }
    assert Winner(cats, 18, Butter) == Winner(cats, 17, Butter) by { assert Butter !in TriggerList(cats[17].triggers); }
    assert Winner(cats, 17, Butter) == Winner(cats, 16, Butter) by { assert Butter !in TriggerList(cats[16].triggers); }
    assert Winner(cats, 16, Butter) == Winner(cats, 15, Butter) by { assert Butter !in TriggerList(cats[15].triggers); }
  }

  lemma ButterSkipsFirst()
    ensures Winner(DefaultCategories, 15, Butter) == Some(WeirdFoods.responses)
  {
    var cats := DefaultCategories;
    assert Winner(cats, 15, Butter) == Winner(cats, 14, Butter) by { assert Butter !in TriggerList(cats[14].triggers); }
    assert Winner(cats, 14, Butter) == Winner(cats, 13, Butter) by { assert Butter !in TriggerList(cats[13].triggers); }
    assert Winner(cats, 13, Butter) == Winner(cats, 12, Butter) by { assert Butter !in TriggerList(cats[12].triggers); }
    assert Winner(cats, 12, Butter) == Winner(cats, 11, Butter) by { assert Butter !in TriggerList(cats[11].triggers); }
  }
}
