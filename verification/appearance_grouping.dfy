/** Pairing light and dark variants of the same image by name
    (`groupByAppearances`, `groupBySuffix` and `groupByPrefix` in
    exporter/xcassets/XcasssetsExporter.kt). The suffix and prefix groupers
    differ only in which end of the name they look at, so one grouper here
    takes the mode as a parameter. */
module AppearanceGrouping {
  import opened Wrappers
  import opened Seqs
  import opened AssocLists
  import opened Formats
  import opened Assets
  import opened Configuration

  /** `GroupedAsset`: the variants of one image set. */
  datatype GroupedAsset = GroupedAsset(light: Option<Asset>, dark: Option<Asset>)

  /** A group the groupers build always has at least one variant. */
  predicate HasSide(g: GroupedAsset) {
    g.light.Some? || g.dark.Some?
  }

  /** Which variant a name stands for: the light or the dark one, or neither
      (a plain image, which is treated as a light-only image set). */
  datatype Side = Light | Dark | Plain

  /** `endsWith` in suffix mode, `startsWith` in prefix mode. */
  predicate HasPattern(mode: AppearanceMode, pattern: string, name: string) {
    |pattern| <= |name| &&
    match mode
    case Suffix => name[|name| - |pattern|..] == pattern
    case Prefix => name[..|pattern|] == pattern
  }

  /** The name a base name and a pattern make in the given mode. */
  function Join(mode: AppearanceMode, base: string, pattern: string): string {
    match mode
    case Suffix => base + pattern
    case Prefix => pattern + base
  }

  /** `removeSuffix` / `removePrefix` on a name that carries the pattern: the
      base name that, joined with the pattern, gives back the name. */
  function Strip(mode: AppearanceMode, pattern: string, name: string): (base: string)
    requires HasPattern(mode, pattern, name)
    ensures |base| == |name| - |pattern|
    ensures Join(mode, base, pattern) == name
  {
    match mode
    case Suffix => name[..|name| - |pattern|]
    case Prefix => name[|pattern|..]
  }

  /** Stripping a pattern from a name built with it gives back the base name. */
  lemma StripJoin(mode: AppearanceMode, base: string, pattern: string)
    ensures HasPattern(mode, pattern, Join(mode, base, pattern))
    ensures Strip(mode, pattern, Join(mode, base, pattern)) == base
  {
    var name := Join(mode, base, pattern);
    match mode
    case Suffix =>
      assert name[|name| - |pattern|..] == pattern;
      assert name[..|name| - |pattern|] == base;
    case Prefix =>
      assert name[..|pattern|] == pattern;
      assert name[|pattern|..] == base;
  }

  /** The key (base name) and side of an asset name. The light pattern is
      tried first, so a name carrying both patterns is a light variant. */
  function Classify(ap: Appearances, name: string): (string, Side) {
    if ap.lightPattern.Some? && HasPattern(ap.mode, ap.lightPattern.value, name) then
      (Strip(ap.mode, ap.lightPattern.value, name), Light)
    else if ap.darkPattern.Some? && HasPattern(ap.mode, ap.darkPattern.value, name) then
      (Strip(ap.mode, ap.darkPattern.value, name), Dark)
    else
      (name, Plain)
  }

  /** What `Classify` decides: a name is a light variant exactly when it
      carries the light pattern, a dark variant exactly when it carries the
      dark pattern but not the light one, and the key joined with the pattern
      gives back the name (a plain image is keyed by its whole name). */
  lemma ClassifyMeaning(ap: Appearances, name: string)
    ensures var (key, side) := Classify(ap, name);
      && (side == Light <==> ap.lightPattern.Some? && HasPattern(ap.mode, ap.lightPattern.value, name))
      && (side == Dark <==>
            && !(ap.lightPattern.Some? && HasPattern(ap.mode, ap.lightPattern.value, name))
            && ap.darkPattern.Some? && HasPattern(ap.mode, ap.darkPattern.value, name))
      && (side == Light ==> Join(ap.mode, key, ap.lightPattern.value) == name)
      && (side == Dark ==> Join(ap.mode, key, ap.darkPattern.value) == name)
      && (side == Plain ==> key == name)
  {
  }

  function KeyOf(ap: Appearances, a: Asset): string {
    Classify(ap, a.name).0
  }

  function SideOf(ap: Appearances, a: Asset): Side {
    Classify(ap, a.name).1
  }

  /** The keys of the assets, one per asset, in input order. */
  function KeysOf(assets: seq<Asset>, ap: Appearances): (ks: seq<string>)
    ensures |ks| == |assets|
    ensures forall i :: 0 <= i < |assets| ==> ks[i] == KeyOf(ap, assets[i])
  {
    if |assets| == 0 then [] else KeysOf(assets[..|assets| - 1], ap) + [KeyOf(ap, assets[|assets| - 1])]
  }

  /** The groups as a map, so far; in the source, `grouped`. */
  type Groups = AssocList<string, GroupedAsset>

  /** The group an asset of side `side` leaves behind, given the group of its
      key so far: a light variant replaces the light side and keeps the dark
      one, a dark variant the other way round, and a plain image replaces the
      whole group by a light-only one. The result always has a variant. */
  function Updated(existing: Option<GroupedAsset>, side: Side, asset: Asset): (g: GroupedAsset)
    ensures HasSide(g)
  {
    match side
    case Light => if existing.Some? then existing.value.(light := Some(asset)) else GroupedAsset(Some(asset), None)
    case Dark => if existing.Some? then existing.value.(dark := Some(asset)) else GroupedAsset(None, Some(asset))
    case Plain => GroupedAsset(Some(asset), None)
  }

  /** One iteration of the grouping loop: the asset's group is updated, or
      created at the end. */
  function Place(grouped: Groups, ap: Appearances, asset: Asset): Groups {
    var key := KeyOf(ap, asset);
    Put(grouped, key, Updated(Get(grouped, key), SideOf(ap, asset), asset))
  }

  /** `groupBySuffix` (mode `Suffix`) and `groupByPrefix` (mode `Prefix`):
      the grouping loop run over the assets in order. Every group it builds
      has a variant. */
  function GroupByPattern(assets: seq<Asset>, ap: Appearances): (r: Groups)
    ensures WellFormed(r)
    ensures forall k :: Get(r, k).Some? ==> HasSide(Get(r, k).value)
  {
    if |assets| == 0 then []
    else
      var init := GroupByPattern(assets[..|assets| - 1], ap);
      PlaceKeepsGroups(init, ap, assets[|assets| - 1]);
      Place(init, ap, assets[|assets| - 1])
  }

  /** An iteration keeps the groups a map, and keeps every group non-empty. */
  lemma PlaceKeepsGroups(g: Groups, ap: Appearances, a: Asset)
    requires WellFormed(g)
    requires forall k :: Get(g, k).Some? ==> HasSide(Get(g, k).value)
    ensures WellFormed(Place(g, ap, a))
    ensures forall k :: Get(Place(g, ap, a), k).Some? ==> HasSide(Get(Place(g, ap, a), k).value)
  {
    var key := KeyOf(ap, a);
    var v := Updated(Get(g, key), SideOf(ap, a), a);
    PutWellFormed(g, key, v);
    forall k | Get(Put(g, key, v), k).Some?
      ensures HasSide(Get(Put(g, key, v), k).value)
    {
      if k != key {
        assert Get(Put(g, key, v), k) == Get(g, k);
      }
    }
  }

  /** `assets.associate { it.name to GroupedAsset(it, null) }`: a light-only
      group per name, the last asset of a name winning. */
  function Associate(assets: seq<Asset>): (r: Groups)
    ensures WellFormed(r)
    ensures forall k :: Get(r, k).Some? ==> Get(r, k).value.light.Some? && Get(r, k).value.dark.None?
  {
    if |assets| == 0 then []
    else
      var a := assets[|assets| - 1];
      PutWellFormed(Associate(assets[..|assets| - 1]), a.name, GroupedAsset(Some(a), None));
      Put(Associate(assets[..|assets| - 1]), a.name, GroupedAsset(Some(a), None))
  }

  /** `groupByAppearances`: without appearance settings, one light-only group
      per asset name; otherwise grouping by suffix or by prefix. */
  function GroupByAppearances(assets: seq<Asset>, appearances: Option<Appearances>): (r: Groups)
    ensures WellFormed(r)
    ensures forall k :: Get(r, k).Some? ==> HasSide(Get(r, k).value)
  {
    match appearances
    case None => Associate(assets)
    case Some(ap) => GroupByPattern(assets, ap)
  }

  // ---------------------------------------------------------------------
  // Which groups exist, and in which order.

  /** The groups appear in the order their keys first occur among the assets,
      one group per key. */
  lemma {:induction false} GroupKeys(assets: seq<Asset>, ap: Appearances)
    ensures Keys(GroupByPattern(assets, ap)) == Dedup(KeysOf(assets, ap))
  {
    if |assets| > 0 {
      var init := assets[..|assets| - 1];
      var key := KeyOf(ap, assets[|assets| - 1]);
      GroupKeys(init, ap);
      DedupSnoc(KeysOf(init, ap), key);
      DedupMember(KeysOf(init, ap), key);
    }
  }

  /** A group exists for a key exactly when some asset has that key. */
  lemma GroupExists(assets: seq<Asset>, ap: Appearances, k: string)
    ensures Get(GroupByPattern(assets, ap), k).Some? <==>
      exists i :: 0 <= i < |assets| && KeyOf(ap, assets[i]) == k
  {
    GroupKeys(assets, ap);
    DedupMember(KeysOf(assets, ap), k);
    if k in KeysOf(assets, ap) {
      var i :| 0 <= i < |assets| && KeysOf(assets, ap)[i] == k;
    }
    forall i | 0 <= i < |assets| && KeyOf(ap, assets[i]) == k
      ensures k in KeysOf(assets, ap)
    {
    }
  }

  // ---------------------------------------------------------------------
  // Which asset ends up on each side of a group: a non-recursive reference.

  /** The key and side of every asset, in input order. */
  function TagsOf(assets: seq<Asset>, ap: Appearances): (tags: seq<(string, Side)>)
    ensures |tags| == |assets|
    ensures forall i :: 0 <= i < |assets| ==> tags[i] == Classify(ap, assets[i].name)
  {
    if |assets| == 0 then [] else TagsOf(assets[..|assets| - 1], ap) + [Classify(ap, assets[|assets| - 1].name)]
  }

  /** The asset at `i` is the light variant of group `k` once every asset is
      placed: it set the light side (as a light or a plain image) and no later
      asset of the same key did, nor replaced the group. */
  ghost predicate LightWins(tags: seq<(string, Side)>, k: string, i: int) {
    && 0 <= i < |tags|
    && tags[i].0 == k
    && tags[i].1 != Dark
    && forall j :: i < j < |tags| && tags[j].0 == k ==> tags[j].1 == Dark
  }

  /** The asset at `i` is the dark variant of group `k` once every asset is
      placed: it set the dark side and every later asset of the same key was a
      light variant, which keeps the dark side. */
  ghost predicate DarkWins(tags: seq<(string, Side)>, k: string, i: int) {
    && 0 <= i < |tags|
    && tags[i].0 == k
    && tags[i].1 == Dark
    && forall j :: i < j < |tags| && tags[j].0 == k ==> tags[j].1 == Light
  }

  /** Some asset wins the light side of group `k`. */
  ghost predicate HasLightWinner(tags: seq<(string, Side)>, k: string) {
    exists i :: LightWins(tags, k, i)
  }

  /** Some asset wins the dark side of group `k`. */
  ghost predicate HasDarkWinner(tags: seq<(string, Side)>, k: string) {
    exists i :: DarkWins(tags, k, i)
  }

  /** The light side of group `k`, if the group exists. */
  function LightOf(g: Groups, k: string): Option<Asset> {
    if Get(g, k).Some? then Get(g, k).value.light else None
  }

  /** The dark side of group `k`, if the group exists. */
  function DarkOf(g: Groups, k: string): Option<Asset> {
    if Get(g, k).Some? then Get(g, k).value.dark else None
  }

  /** Placing an asset sets the sides its side stands for, in its own group
      only: a light variant or a plain image sets the light side, a dark
      variant the dark side, and a plain image clears the dark side. */
  lemma PlaceSides(g: Groups, ap: Appearances, a: Asset, k: string)
    ensures LightOf(Place(g, ap, a), k) ==
      if KeyOf(ap, a) == k && SideOf(ap, a) != Dark then Some(a) else LightOf(g, k)
    ensures DarkOf(Place(g, ap, a), k) ==
      if KeyOf(ap, a) != k || SideOf(ap, a) == Light then DarkOf(g, k)
      else if SideOf(ap, a) == Dark then Some(a)
      else None
  {
  }

  /** Appending an asset of another key changes no winner of group `k`. */
  lemma WinsOtherKey(tags: seq<(string, Side)>, t: (string, Side), k: string)
    requires t.0 != k
    ensures forall i :: LightWins(tags + [t], k, i) <==> LightWins(tags, k, i)
    ensures forall i :: DarkWins(tags + [t], k, i) <==> DarkWins(tags, k, i)
  {
    var all := tags + [t];
    forall i | 0 <= i < |tags|
      ensures LightWins(all, k, i) <==> LightWins(tags, k, i)
      ensures DarkWins(all, k, i) <==> DarkWins(tags, k, i)
    {
      assert all[i] == tags[i];
      assert forall j :: i < j < |tags| ==> all[j] == tags[j];
    }
  }

  /** Appending an asset of key `k`: it is the new winner of the sides it
      sets, the old winner of a side it keeps stays, and a plain image leaves
      no dark winner. */
  lemma WinsSameKey(tags: seq<(string, Side)>, t: (string, Side), k: string)
    requires t.0 == k
    ensures t.1 != Dark ==> forall i :: LightWins(tags + [t], k, i) <==> i == |tags|
    ensures t.1 == Dark ==> forall i :: DarkWins(tags + [t], k, i) <==> i == |tags|
    ensures t.1 == Dark ==> forall i :: LightWins(tags + [t], k, i) <==> LightWins(tags, k, i)
    ensures t.1 == Light ==> forall i :: DarkWins(tags + [t], k, i) <==> DarkWins(tags, k, i)
    ensures t.1 == Plain ==> forall i :: !DarkWins(tags + [t], k, i)
  {
    var all := tags + [t];
    forall i | 0 <= i < |tags|
      ensures LightWins(all, k, i) <==> t.1 == Dark && LightWins(tags, k, i)
      ensures DarkWins(all, k, i) <==> t.1 == Light && DarkWins(tags, k, i)
    {
      assert all[i] == tags[i];
      assert forall j :: i < j < |tags| ==> all[j] == tags[j];
      assert all[|tags|] == t;
    }
  }

  /** One more asset: one more iteration of the grouping loop. */
  lemma GroupStep(assets: seq<Asset>, ap: Appearances)
    requires |assets| > 0
    ensures GroupByPattern(assets, ap) == Place(GroupByPattern(assets[..|assets| - 1], ap), ap, assets[|assets| - 1])
    ensures TagsOf(assets, ap) == TagsOf(assets[..|assets| - 1], ap) + [(KeyOf(ap, assets[|assets| - 1]), SideOf(ap, assets[|assets| - 1]))]
  {
  }

  /** One iteration, for the light side of group `k`: if the winner before
      the asset `a` (tagged `t`) was the light side before, the winner after
      is the light side after. */
  lemma LightStep(
    init: seq<Asset>, a: Asset, assets: seq<Asset>,
    tags: seq<(string, Side)>, t: (string, Side), all: seq<(string, Side)>,
    k: string, before: Option<Asset>, after: Option<Asset>)
    requires |tags| == |init|
    requires |assets| > 0 && init == assets[..|assets| - 1] && a == assets[|assets| - 1]
    requires all == tags + [t]
    requires before.Some? <==> HasLightWinner(tags, k)
    requires forall i :: LightWins(tags, k, i) ==> before == Some(init[i])
    requires after == if t.0 == k && t.1 != Dark then Some(a) else before
    ensures after.Some? <==> HasLightWinner(all, k)
    ensures forall i :: LightWins(all, k, i) ==> after == Some(assets[i])
  {
    if t.0 != k {
      WinsOtherKey(tags, t, k);
      if before.Some? {
        var i :| LightWins(tags, k, i);
        assert LightWins(tags + [t], k, i);
      }
    } else {
      WinsSameKey(tags, t, k);
      if t.1 != Dark {
        assert LightWins(tags + [t], k, |tags|);
      } else if before.Some? {
        var i :| LightWins(tags, k, i);
        assert LightWins(tags + [t], k, i);
      }
    }
  }

  /** One iteration, for the dark side of group `k`. */
  lemma DarkStep(
    init: seq<Asset>, a: Asset, assets: seq<Asset>,
    tags: seq<(string, Side)>, t: (string, Side), all: seq<(string, Side)>,
    k: string, before: Option<Asset>, after: Option<Asset>)
    requires |tags| == |init|
    requires |assets| > 0 && init == assets[..|assets| - 1] && a == assets[|assets| - 1]
    requires all == tags + [t]
    requires before.Some? <==> HasDarkWinner(tags, k)
    requires forall i :: DarkWins(tags, k, i) ==> before == Some(init[i])
    requires after ==
      if t.0 != k || t.1 == Light then before
      else if t.1 == Dark then Some(a)
      else None
    ensures after.Some? <==> HasDarkWinner(all, k)
    ensures forall i :: DarkWins(all, k, i) ==> after == Some(assets[i])
  {
    if t.0 != k {
      WinsOtherKey(tags, t, k);
      if before.Some? {
        var i :| DarkWins(tags, k, i);
        assert DarkWins(tags + [t], k, i);
      }
    } else {
      WinsSameKey(tags, t, k);
      if t.1 == Dark {
        assert DarkWins(tags + [t], k, |tags|);
      } else if t.1 == Light && before.Some? {
        var i :| DarkWins(tags, k, i);
        assert DarkWins(tags + [t], k, i);
      }
    }
  }

  /** The light side of every group, characterised without the loop: it is
      the asset that wins it, or absent when none does. */
  lemma {:induction false} GroupLight(assets: seq<Asset>, ap: Appearances, k: string)
    ensures LightOf(GroupByPattern(assets, ap), k).Some? <==> HasLightWinner(TagsOf(assets, ap), k)
    ensures forall i :: LightWins(TagsOf(assets, ap), k, i) ==> LightOf(GroupByPattern(assets, ap), k) == Some(assets[i])
  {
    if |assets| > 0 {
      var n := |assets| - 1;
      var init := assets[..n];
      var t := (KeyOf(ap, assets[n]), SideOf(ap, assets[n]));
      var before := LightOf(GroupByPattern(init, ap), k);
      var after := LightOf(GroupByPattern(assets, ap), k);
      assert TagsOf(assets, ap) == TagsOf(init, ap) + [t] by {
        GroupStep(assets, ap);
      }
      assert after == if t.0 == k && t.1 != Dark then Some(assets[n]) else before by {
        GroupStep(assets, ap);
        PlaceSides(GroupByPattern(init, ap), ap, assets[n], k);
      }
      GroupLight(init, ap, k);
      LightStep(init, assets[n], assets, TagsOf(init, ap), t, TagsOf(assets, ap), k, before, after);
    } else {
      assert |TagsOf(assets, ap)| == 0;
      assert GroupByPattern(assets, ap) == [];
    }
  }

  /** The dark side of every group, characterised without the loop. */
  lemma {:induction false} GroupDark(assets: seq<Asset>, ap: Appearances, k: string)
    ensures DarkOf(GroupByPattern(assets, ap), k).Some? <==> HasDarkWinner(TagsOf(assets, ap), k)
    ensures forall i :: DarkWins(TagsOf(assets, ap), k, i) ==> DarkOf(GroupByPattern(assets, ap), k) == Some(assets[i])
  {
    if |assets| > 0 {
      var n := |assets| - 1;
      var init := assets[..n];
      var t := (KeyOf(ap, assets[n]), SideOf(ap, assets[n]));
      var before := DarkOf(GroupByPattern(init, ap), k);
      var after := DarkOf(GroupByPattern(assets, ap), k);
      assert TagsOf(assets, ap) == TagsOf(init, ap) + [t] by {
        GroupStep(assets, ap);
      }
      assert after == if t.0 != k || t.1 == Light then before else if t.1 == Dark then Some(assets[n]) else None by {
        GroupStep(assets, ap);
        PlaceSides(GroupByPattern(init, ap), ap, assets[n], k);
      }
      GroupDark(init, ap, k);
      DarkStep(init, assets[n], assets, TagsOf(init, ap), t, TagsOf(assets, ap), k, before, after);
    } else {
      assert |TagsOf(assets, ap)| == 0;
      assert GroupByPattern(assets, ap) == [];
    }
  }

  // ---------------------------------------------------------------------
  // Settings without patterns.

  /** With neither pattern set, whatever the mode, every asset is a plain
      image and the grouping is the one made without appearance settings. */
  lemma {:induction false} NoPatternsIsAssociate(assets: seq<Asset>, mode: AppearanceMode)
    ensures GroupByPattern(assets, Appearances(mode, None, None)) == Associate(assets)
  {
    if |assets| > 0 {
      var init := assets[..|assets| - 1];
      var a := assets[|assets| - 1];
      var ap := Appearances(mode, None, None);
      NoPatternsIsAssociate(init, mode);
      GroupStep(assets, ap);
      AssociateStep(assets);
      PlacePlain(GroupByPattern(init, ap), mode, a);
    }
  }

  /** Without patterns, an iteration puts a light-only group under the name. */
  lemma PlacePlain(g: Groups, mode: AppearanceMode, a: Asset)
    ensures Place(g, Appearances(mode, None, None), a) == Put(g, a.name, GroupedAsset(Some(a), None))
  {
    var ap := Appearances(mode, None, None);
    assert KeyOf(ap, a) == a.name && SideOf(ap, a) == Plain by {
      assert Classify(ap, a.name) == (a.name, Plain);
    }
    assert Updated(Get(g, a.name), Plain, a) == GroupedAsset(Some(a), None);
  }

  /** One step of `associate`. */
  lemma AssociateStep(assets: seq<Asset>)
    requires |assets| > 0
    ensures Associate(assets) ==
      Put(Associate(assets[..|assets| - 1]), assets[|assets| - 1].name, GroupedAsset(Some(assets[|assets| - 1]), None))
  {
  }

  /** `Appearances()` left at its defaults groups exactly as no settings do. */
  lemma DefaultAppearancesGroupByName(assets: seq<Asset>)
    ensures GroupByAppearances(assets, Some(DefaultAppearances())) == GroupByAppearances(assets, None)
  {
    NoPatternsIsAssociate(assets, Suffix);
  }

  /** Without settings, groups are keyed by asset name in first-occurrence
      order, and the light side of each is the last asset of that name. */
  lemma {:induction false} AssociateByName(assets: seq<Asset>, i: int)
    requires 0 <= i < |assets|
    requires forall j :: i < j < |assets| ==> assets[j].name != assets[i].name
    ensures Get(Associate(assets), assets[i].name) == Some(GroupedAsset(Some(assets[i]), None))
  {
    if i < |assets| - 1 {
      AssociateByName(assets[..|assets| - 1], i);
    }
  }

  /** Without settings, every asset name has its group. */
  lemma {:induction false} AssociateHasEveryName(assets: seq<Asset>, n: int)
    requires 0 <= n < |assets|
    ensures Get(Associate(assets), assets[n].name).Some?
  {
    if n < |assets| - 1 {
      AssociateHasEveryName(assets[..|assets| - 1], n);
    }
  }

  /** A light and a dark variant of one image, in suffix mode, make one image
      set keyed by the shared base name. */
  lemma LightDarkPair(base: string, lightSuffix: string, darkSuffix: string, format: Format, light: AssocList<int, string>, dark: AssocList<int, string>)
    requires !HasPattern(Suffix, lightSuffix, base + darkSuffix)
    ensures var l := Asset(base + lightSuffix, format, light);
      var d := Asset(base + darkSuffix, format, dark);
      GroupByPattern([l, d], Appearances(Suffix, Some(lightSuffix), Some(darkSuffix)))
        == [(base, GroupedAsset(Some(l), Some(d)))]
  {
    var l := Asset(base + lightSuffix, format, light);
    var d := Asset(base + darkSuffix, format, dark);
    var ap := Appearances(Suffix, Some(lightSuffix), Some(darkSuffix));
    StripJoin(Suffix, base, lightSuffix);
    StripJoin(Suffix, base, darkSuffix);
    assert Classify(ap, l.name) == (base, Light);
    assert Classify(ap, d.name) == (base, Dark);
    assert [l, d][..1] == [l];
    assert [l][..0] == [];
    var first := [(base, GroupedAsset(Some(l), None))];
    assert GroupByPattern([l], ap) == Place([], ap, l) == first;
    assert Place(first, ap, d) == [(base, GroupedAsset(Some(l), Some(d)))];
  }
}
