/** The correction pass of script/adjust_item_data.py: every item of the
    database gets an infobox, items named in a type list get that type,
    items named in the price table get that sell price, items named in the
    image table get that thumbnail, and the number of fields written is
    counted. Loading and saving the JSON file is not modelled: the pass
    works on an in-memory array of items. */
module ItemAdjust {
  import opened Wrappers

  /** A JSON value stored in an infobox. */
  datatype Field = Text(text: string) | Number(number: int) | Raw(json: string)

  /** An item record: its name, its `infobox` and `image_urls` objects when
      present, and the remaining keys, which the pass never touches. */
  datatype Item = Item(
    name: string,
    infobox: Option<map<string, Field>>,
    imageUrls: Option<map<string, string>>,
    other: map<string, Field>)

  /** The type lists, in the order the source's dictionary lists them. */
  type TypeTable = seq<(string, seq<string>)>

  const TypeAdjustments: TypeTable := [
    ("Augment", [
      "Free Loadout Augment", "Looting Mk. 1", "Combat Mk. 1", "Tactical Mk. 1",
      "Looting Mk. 2", "Combat Mk. 2", "Tactical Mk. 2",
      "Looting Mk. 3 (Cautious)", "Looting Mk. 3 (Survivor)",
      "Combat Mk. 3 (Aggressive)", "Combat Mk. 3 (Flanking)",
      "Tactical Mk. 3 (Defensive)", "Tactical Mk. 3 (Healing)"]),
    ("Shield", ["Light Shield", "Medium Shield", "Heavy Shield"]),
    ("Ammo", [
      "Light Ammo", "Medium Ammo", "Heavy Ammo",
      "Shotgun Ammo", "Launcher Ammo", "Energy Clip"])
  ]

  /** Both other tables are empty in the source (their entries are
      commented out). */
  const PriceAdjustments: map<string, int> := map[]
  const ImageAdjustments: map<string, string> := map[]

  /** The infobox after the type loop: each list naming the item sets
      `type`, so the last such list wins. */
  function ApplyTypes(types: TypeTable, infobox: map<string, Field>, name: string): (r: map<string, Field>)
    ensures r.Keys == infobox.Keys || r.Keys == infobox.Keys + {"type"}
    ensures forall key :: key in infobox && key != "type" ==> key in r && r[key] == infobox[key]
    ensures TypeMatches(types, name) == 0 ==> r == infobox
    ensures TypeMatches(types, name) > 0 ==>
      "type" in r && exists k :: 0 <= k < |types| && name in types[k].1 && r["type"] == Text(types[k].0)
  {
    if types == [] then infobox
    else
      var init := types[..|types| - 1];
      var before := ApplyTypes(init, infobox, name);
      var (itemType, names) := types[|types| - 1];
      assert forall k :: 0 <= k < |init| ==> init[k] == types[k];
      if name in names then before["type" := Text(itemType)] else before
  }

  /** How many type lists name the item. */
  function TypeMatches(types: TypeTable, name: string): (n: nat)
    ensures n <= |types|
  {
    if types == [] then 0
    else TypeMatches(types[..|types| - 1], name) + (if name in types[|types| - 1].1 then 1 else 0)
  }

  /** The number of fields the pass writes for an item of this name. */
  function Matches(types: TypeTable, prices: map<string, int>, images: map<string, string>, name: string): nat {
    TypeMatches(types, name) + (if name in prices then 1 else 0) + (if name in images then 1 else 0)
  }

  /** One item after the pass. */
  function AdjustItem(types: TypeTable, prices: map<string, int>, images: map<string, string>, item: Item): (r: Item)
    ensures r.infobox.Some?
    ensures r.name == item.name && r.other == item.other
    ensures item.name !in images ==> r.imageUrls == item.imageUrls
    ensures item.name in images ==> r.imageUrls == Some(item.imageUrls.GetOr(map[])["thumb" := images[item.name]])
    ensures item.name in prices ==> "sellprice" in r.infobox.value && r.infobox.value["sellprice"] == Number(prices[item.name])
    ensures var before := item.infobox.GetOr(map[]);
      before.Keys <= r.infobox.value.Keys <= before.Keys + {"type", "sellprice"}
    ensures var before := item.infobox.GetOr(map[]);
      forall key :: key in before && key != "type" && key != "sellprice" ==> r.infobox.value[key] == before[key]
    ensures var typed := ApplyTypes(types, item.infobox.GetOr(map[]), item.name);
      forall key :: key != "sellprice" ==> (key in r.infobox.value <==> key in typed)
    ensures var typed := ApplyTypes(types, item.infobox.GetOr(map[]), item.name);
      forall key :: key != "sellprice" && key in typed ==> r.infobox.value[key] == typed[key]
    ensures item.name !in prices ==> r.infobox.value == ApplyTypes(types, item.infobox.GetOr(map[]), item.name)
  {
    var infobox := ApplyTypes(types, item.infobox.GetOr(map[]), item.name);
    var infobox := if item.name in prices then infobox["sellprice" := Number(prices[item.name])] else infobox;
    var imageUrls :=
      if item.name in images then Some(item.imageUrls.GetOr(map[])["thumb" := images[item.name]])
      else item.imageUrls;
    item.(infobox := Some(infobox), imageUrls := imageUrls)
  }

  /** The number of fields the pass writes for a run of items. */
  function TotalMatches(types: TypeTable, prices: map<string, int>, images: map<string, string>, items: seq<Item>): nat {
    if items == [] then 0
    else TotalMatches(types, prices, images, items[..|items| - 1]) + Matches(types, prices, images, items[|items| - 1].name)
  }

  /** The body of `adjust_item_data`'s loop for one item: the corrected
      item and the number of fields written. */
  method AdjustOne(item: Item, types: TypeTable, prices: map<string, int>, images: map<string, string>)
    returns (adjusted: Item, written: nat)
    ensures adjusted == AdjustItem(types, prices, images, item)
    ensures written == Matches(types, prices, images, item.name)
  {
    var infobox := if item.infobox.None? then map[] else item.infobox.value;
    written := 0;
    var j := 0;
    while j < |types|
      invariant 0 <= j <= |types|
      invariant infobox == ApplyTypes(types[..j], item.infobox.GetOr(map[]), item.name)
      invariant written == TypeMatches(types[..j], item.name)
    {
      assert types[..j + 1][..j] == types[..j];
      var (itemType, names) := types[j];
      if item.name in names {
        infobox := infobox["type" := Text(itemType)];
        written := written + 1;
      }
      j := j + 1;
    }
    assert types[..j] == types;
    if item.name in prices {
      infobox := infobox["sellprice" := Number(prices[item.name])];
      written := written + 1;
    }
    var imageUrls := item.imageUrls;
    if item.name in images {
      var urls := if imageUrls.None? then map[] else imageUrls.value;
      imageUrls := Some(urls["thumb" := images[item.name]]);
      written := written + 1;
    }
    adjusted := item.(infobox := Some(infobox), imageUrls := imageUrls);
  }

  /** `adjust_item_data`'s loop: each item is corrected in place, nothing
      else changes, and `updated` counts the fields written. */
  method AdjustItemData(items: array<Item>, types: TypeTable, prices: map<string, int>, images: map<string, string>)
    returns (updated: nat)
    modifies items
    ensures forall k :: 0 <= k < items.Length ==> items[k] == AdjustItem(types, prices, images, old(items[k]))
    ensures updated == TotalMatches(types, prices, images, old(items[..]))
  {
    ghost var original := items[..];
    updated := 0;
    var i := 0;
    while i < items.Length
      invariant 0 <= i <= items.Length
      invariant forall k :: 0 <= k < i ==> items[k] == AdjustItem(types, prices, images, original[k])
      invariant forall k :: i <= k < items.Length ==> items[k] == original[k]
      invariant updated == TotalMatches(types, prices, images, original[..i])
    {
      var adjusted, written := AdjustOne(items[i], types, prices, images);
      ghost var before := items[..];
      items[i] := adjusted;
      assert items[..] == before[i := adjusted];
      updated := updated + written;
      assert original[..i + 1][..i] == original[..i];
      i := i + 1;
    }
    assert original[..i] == original;
  }

  /** An item named in no table is unchanged, except that it gains an empty
      infobox when it had none. */
  lemma UnlistedUnchanged(types: TypeTable, prices: map<string, int>, images: map<string, string>, item: Item)
    requires forall k :: 0 <= k < |types| ==> item.name !in types[k].1
    requires item.name !in prices && item.name !in images
    ensures AdjustItem(types, prices, images, item) == item.(infobox := Some(item.infobox.GetOr(map[])))
    ensures Matches(types, prices, images, item.name) == 0
  {
    ApplyTypesUnlisted(types, item.infobox.GetOr(map[]), item.name);
  }

  lemma {:induction false} ApplyTypesUnlisted(types: TypeTable, infobox: map<string, Field>, name: string)
    requires forall k :: 0 <= k < |types| ==> name !in types[k].1
    ensures ApplyTypes(types, infobox, name) == infobox
    ensures TypeMatches(types, name) == 0
  {
    if types != [] {
      ApplyTypesUnlisted(types[..|types| - 1], infobox, name);
    }
  }

  /** The last type list naming the item decides its type. */
  lemma {:induction false} LastListWins(types: TypeTable, infobox: map<string, Field>, name: string, k: nat)
    requires k < |types| && name in types[k].1
    requires forall m :: k < m < |types| ==> name !in types[m].1
    ensures "type" in ApplyTypes(types, infobox, name)
    ensures ApplyTypes(types, infobox, name)["type"] == Text(types[k].0)
    decreases |types|
  {
    if k < |types| - 1 {
      LastListWins(types[..|types| - 1], infobox, name, k);
    }
  }

  /** The last character of every name tells the source's lists apart:
      augments end in 't', a digit or ')', shields in 'd', ammunition in
      'o' or 'p'. */
  function Tail(name: string): char {
    if name == [] then ' ' else name[|name| - 1]
  }

  /** The source's three type lists share no name. */
  lemma TypeListsDisjoint()
    ensures forall n :: n in TypeAdjustments[0].1 ==> Tail(n) in {'t', '1', '2', '3', ')'}
    ensures forall n :: n in TypeAdjustments[1].1 ==> Tail(n) == 'd'
    ensures forall n :: n in TypeAdjustments[2].1 ==> Tail(n) in {'o', 'p'}
    ensures forall a, b, n :: 0 <= a < b < 3 && n in TypeAdjustments[a].1 ==> n !in TypeAdjustments[b].1
  {
    forall a, b, n | 0 <= a < b < 3 && n in TypeAdjustments[a].1 ensures n !in TypeAdjustments[b].1 {
      if a == 0 {
        assert Tail(n) in {'t', '1', '2', '3', ')'};
      } else {
        assert Tail(n) == 'd';
      }
    }
  }

  /** With the source's tables, an item named in list k ends with that
      list's type. */
  lemma SourceTypeRule(item: Item, k: nat)
    requires k < 3 && item.name in TypeAdjustments[k].1
    ensures var infobox := AdjustItem(TypeAdjustments, PriceAdjustments, ImageAdjustments, item).infobox.value;
      "type" in infobox && infobox["type"] == Text(TypeAdjustments[k].0)
  {
    TypeListsDisjoint();
    LastListWins(TypeAdjustments, item.infobox.GetOr(map[]), item.name, k);
  }

  /** Whether one of the source's type lists names the item. */
  predicate Listed(name: string) {
    exists k :: 0 <= k < 3 && name in TypeAdjustments[k].1
  }

  /** With the source's tables, the pass writes one field for each listed
      item and none for the others. */
  lemma SourceMatches(name: string)
    ensures Matches(TypeAdjustments, PriceAdjustments, ImageAdjustments, name) == if Listed(name) then 1 else 0
  {
    TypeListsDisjoint();
    var t := TypeAdjustments;
    assert t[..1][..0] == [] && t[..2][..1] == t[..1] && t[..2] == t[..|t| - 1];
    assert TypeMatches(t[..1], name) == (if name in t[0].1 then 1 else 0);
    assert TypeMatches(t[..2], name) == TypeMatches(t[..1], name) + (if name in t[1].1 then 1 else 0);
    assert TypeMatches(t, name) == TypeMatches(t[..2], name) + (if name in t[2].1 then 1 else 0);
  }

  /** The number of listed items in a run of items. */
  function ListedCount(items: seq<Item>): (n: nat)
    ensures n <= |items|
  {
    if items == [] then 0
    else ListedCount(items[..|items| - 1]) + (if Listed(items[|items| - 1].name) then 1 else 0)
  }

  /** With the source's tables, `updated` is the number of listed items. */
  lemma {:induction false} SourceUpdatedCount(items: seq<Item>)
    ensures TotalMatches(TypeAdjustments, PriceAdjustments, ImageAdjustments, items) == ListedCount(items)
    decreases |items|
  {
    if items != [] {
      SourceUpdatedCount(items[..|items| - 1]);
      SourceMatches(items[|items| - 1].name);
    }
  }
}
