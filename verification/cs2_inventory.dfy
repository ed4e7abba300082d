/**
 * The Steam inventory export of Ejemplos/cs2-inventory.py: every asset is
 * joined to its description through the key `classid_instanceid` and turned
 * into one spreadsheet row. Reading the JSON file and writing the workbook
 * are left to the caller; the decoded `assets` and `descriptions` lists
 * (empty when the document lacks them) are the inputs here.
 */
module Cs2Inventory {
  import opened Wrappers
  import opened Text

  /** An entry of a description's `tags`; `name` may be missing. */
  datatype Tag = Tag(name: Option<string>)

  /** An entry of a description's `actions`; `name` and `value` may be missing. */
  datatype Action = Action(name: Option<string>, value: Option<string>)

  /** An element of `descriptions`; the optional keys are `Option`s. */
  datatype Description = Description(
    classid: string, instanceid: string,
    marketName: Option<string>, kind: Option<string>,
    tags: Option<seq<Tag>>, actions: Option<seq<Action>>)

  /** An element of `assets`; `amount` may be missing. */
  datatype Asset = Asset(classid: string, instanceid: string, amount: Option<string>)

  /** The Cantidad column: the asset's `amount`, or the integer 1 when it has none. */
  datatype Quantity = Amount(text: string) | One

  /** One row of the workbook. */
  datatype Row = Row(nombre: string, tipo: string, rareza: string, cantidad: Quantity, inspectLink: string)

  const NotAvailable := "N/A"

  /** The join key `f"{classid}_{instanceid}"`. */
  function Key(classid: string, instanceid: string): (key: string)
    ensures |key| == |classid| + 1 + |instanceid| && key[|classid|] == '_'
    ensures key[..|classid|] == classid && key[|classid| + 1..] == instanceid
  {
    classid + "_" + instanceid
  }

  /** Ids without `_` (Steam's ids are digit strings) give distinct keys exactly for distinct pairs. */
  lemma KeyInjective(c1: string, i1: string, c2: string, i2: string)
    requires '_' !in c1 && '_' !in c2
    ensures Key(c1, i1) == Key(c2, i2) <==> c1 == c2 && i1 == i2
  {
    if Key(c1, i1) == Key(c2, i2) {
      var k1, k2 := Key(c1, i1), Key(c2, i2);
      if |c1| < |c2| {
        SeparatorAfterClass(c1, i1, c2, i2);
        assert false;
      } else if |c2| < |c1| {
        SeparatorAfterClass(c2, i2, c1, i1);
        assert false;
      } else {
        assert c1 == k1[..|c1|] && c2 == k2[..|c2|];
        assert i1 == k1[|c1| + 1..] && i2 == k2[|c2| + 1..];
      }
    }
  }

  /** Where the shorter class id ends, its key has `_` and the other key a character of the longer id. */
  lemma SeparatorAfterClass(c1: string, i1: string, c2: string, i2: string)
    ensures |c1| < |c2| ==> Key(c1, i1)[|c1|] == '_' && Key(c2, i2)[|c1|] in c2
  {
    if |c1| < |c2| {
      assert Key(c2, i2)[|c1|] == c2[|c1|];
    }
  }

  /** With `_` inside an id, two different pairs share a key. */
  lemma KeyCollision()
    ensures Key("1_2", "3") == Key("1", "2_3")
  {
  }

  /** Line 20: the descriptions by key; when several share a key the last one wins. */
  function DescriptionIndex(descs: seq<Description>): map<string, Description>
    decreases |descs|
  {
    if descs == [] then map[]
    else
      var i := |descs| - 1;
      var d := descs[i];
      DescriptionIndex(descs[..i])[Key(d.classid, d.instanceid) := d]
  }

  /**
   * The index holds exactly the keys of the descriptions, and under each
   * key one of the descriptions that has that key.
   */
  lemma {:induction false} IndexKeys(descs: seq<Description>)
    ensures forall key :: key in DescriptionIndex(descs) <==>
      exists k :: 0 <= k < |descs| && Key(descs[k].classid, descs[k].instanceid) == key
    ensures forall key :: key in DescriptionIndex(descs) ==>
      DescriptionIndex(descs)[key] in descs
      && Key(DescriptionIndex(descs)[key].classid, DescriptionIndex(descs)[key].instanceid) == key
    decreases |descs|
  {
    if descs != [] {
      var i := |descs| - 1;
      IndexKeys(descs[..i]);
      assert forall k :: 0 <= k < i ==> descs[..i][k] == descs[k];
    }
  }

  /** The description stored under a key is the last one with that key. */
  lemma {:induction false} LastDescriptionWins(descs: seq<Description>, k: nat)
    requires k < |descs|
    requires forall j :: k < j < |descs| ==>
      Key(descs[j].classid, descs[j].instanceid) != Key(descs[k].classid, descs[k].instanceid)
    ensures Key(descs[k].classid, descs[k].instanceid) in DescriptionIndex(descs)
    ensures DescriptionIndex(descs)[Key(descs[k].classid, descs[k].instanceid)] == descs[k]
    decreases |descs|
  {
    var i := |descs| - 1;
    if k < i {
      assert descs[..i][k] == descs[k];
      LastDescriptionWins(descs[..i], k);
    }
  }

  /** Line 31: the `name` of the last tag, unless the tags are missing or empty or that tag has no name. */
  function Rarity(tags: Option<seq<Tag>>): (r: string)
    ensures tags.None? || tags.value == [] ==> r == NotAvailable
    ensures tags.Some? && tags.value != [] ==> r == tags.value[|tags.value| - 1].name.GetOr(NotAvailable)
  {
    if tags.Some? && tags.value != [] then tags.value[|tags.value| - 1].name.GetOr(NotAvailable)
    else NotAvailable
  }

  /**
   * Line 33: the `value` of the first action whose `name` contains
   * "Inspect", or "N/A" when none does; `None` when that action has no
   * `value` (the lookup raises `KeyError` and the script stops).
   */
  function InspectLink(actions: seq<Action>): (link: Option<string>)
    ensures link != Some(NotAvailable) ==> exists k :: 0 <= k < |actions| && link == actions[k].value
  {
    if actions == [] then Some(NotAvailable)
    else if Contains(actions[0].name.GetOr(""), "Inspect") then actions[0].value
    else InspectLink(actions[1..])
  }

  /** The first action naming "Inspect" decides the link; with none it is "N/A". */
  lemma {:induction false} InspectLinkFirst(actions: seq<Action>, k: nat)
    requires k < |actions| && Contains(actions[k].name.GetOr(""), "Inspect")
    requires forall j :: 0 <= j < k ==> !Contains(actions[j].name.GetOr(""), "Inspect")
    ensures InspectLink(actions) == actions[k].value
  {
    if k > 0 {
      assert forall j :: 0 <= j < k - 1 ==> actions[1..][j] == actions[j + 1];
      InspectLinkFirst(actions[1..], k - 1);
    }
  }

  lemma {:induction false} InspectLinkNone(actions: seq<Action>)
    requires forall j :: 0 <= j < |actions| ==> !Contains(actions[j].name.GetOr(""), "Inspect")
    ensures InspectLink(actions) == Some(NotAvailable)
  {
    if actions != [] {
      assert forall j :: 0 <= j < |actions| - 1 ==> actions[1..][j] == actions[j + 1];
      InspectLinkNone(actions[1..]);
    }
  }

  /** Lines 25-34 for one asset; `None` when the inspect lookup raises. */
  function RowFor(asset: Asset, index: map<string, Description>): (row: Option<Row>)
    ensures row.None? <==> var key := Key(asset.classid, asset.instanceid);
      key in index && InspectLink(index[key].actions.GetOr([])).None?
  {
    var key := Key(asset.classid, asset.instanceid);
    var cantidad := if asset.amount.Some? then Amount(asset.amount.value) else One;
    if key !in index then Some(Row(NotAvailable, NotAvailable, NotAvailable, cantidad, NotAvailable))
    else
      var d := index[key];
      var link := InspectLink(d.actions.GetOr([]));
      if link.None? then None
      else Some(Row(d.marketName.GetOr(NotAvailable), d.kind.GetOr(NotAvailable), Rarity(d.tags), cantidad, link.value))
  }

  /** An asset with no matching description has "N/A" everywhere but Cantidad. */
  lemma UnmatchedAsset(asset: Asset, index: map<string, Description>)
    requires Key(asset.classid, asset.instanceid) !in index
    ensures RowFor(asset, index).Some?
    ensures var row := RowFor(asset, index).value;
      row.nombre == NotAvailable && row.tipo == NotAvailable && row.rareza == NotAvailable && row.inspectLink == NotAvailable
  {
  }

  /**
   * An asset with a matching description takes Nombre, Tipo and Rareza from
   * it, "N/A" standing in for a missing key, and fails exactly when the
   * inspect lookup does.
   */
  lemma MatchedAsset(asset: Asset, descs: seq<Description>, k: nat)
    requires k < |descs| && Key(descs[k].classid, descs[k].instanceid) == Key(asset.classid, asset.instanceid)
    requires forall j :: k < j < |descs| ==>
      Key(descs[j].classid, descs[j].instanceid) != Key(descs[k].classid, descs[k].instanceid)
    ensures var d := descs[k];
      && (RowFor(asset, DescriptionIndex(descs)).None? <==> InspectLink(d.actions.GetOr([])).None?)
      && (RowFor(asset, DescriptionIndex(descs)).Some? ==>
            var row := RowFor(asset, DescriptionIndex(descs)).value;
            && row.nombre == d.marketName.GetOr(NotAvailable) && row.tipo == d.kind.GetOr(NotAvailable)
            && row.rareza == Rarity(d.tags) && row.inspectLink == InspectLink(d.actions.GetOr([])).value)
  {
    LastDescriptionWins(descs, k);
  }

  /** Cantidad is the asset's amount, defaulting to one, whatever the description. */
  lemma QuantityOfAsset(asset: Asset, index: map<string, Description>)
    requires RowFor(asset, index).Some?
    ensures RowFor(asset, index).value.cantidad == if asset.amount.Some? then Amount(asset.amount.value) else One
  {
  }

  /**
   * Lines 19-34: one row per asset, in asset order; `None` when the loop
   * stops on a missing inspect value.
   */
  method BuildInventory(assets: seq<Asset>, descs: seq<Description>) returns (rows: Option<seq<Row>>)
    ensures rows.Some? <==> forall k :: 0 <= k < |assets| ==> RowFor(assets[k], DescriptionIndex(descs)).Some?
    ensures rows.Some? ==>
      |rows.value| == |assets| && forall k :: 0 <= k < |assets| ==> rows.value[k] == RowFor(assets[k], DescriptionIndex(descs)).value
  {
    var index := DescriptionIndex(descs);
    var items := [];
    for k := 0 to |assets|
      invariant |items| == k
      invariant forall j :: 0 <= j < k ==> RowFor(assets[j], index).Some? && items[j] == RowFor(assets[j], index).value
    {
      var row := RowFor(assets[k], index);
      if row.None? {
        return None;
      }
      items := items + [row.value];
    }
    rows := Some(items);
  }
}
