/** `XcassetsExporter.exportXcassets` (exporter/xcassets/XcasssetsExporter.kt)
    as a plan: the directories it creates, the files `Downloader` writes into
    each image set (utils/Downloader.kt), and the `Contents.json` manifest of
    each folder. Creating directories, fetching URLs and writing files are
    effects outside this model; the plan records what they are asked to do. */
module CatalogExport {
  import opened Wrappers
  import opened Seqs
  import opened AssocLists
  import opened Assets
  import opened AssetCatalog
  import opened Configuration
  import opened AppearanceGrouping

  // ---------------------------------------------------------------------
  // The image list of an image set manifest (`createContentFile`).

  /** The scale factors among `units` that `Scale.fromUnit` accepts, in order. */
  function ValidUnits(units: seq<int>): (r: seq<int>)
    ensures |r| <= |units|
    ensures forall i :: 0 <= i < |r| ==> 1 <= r[i] <= 3
    ensures |units| == 1 ==> r == if 1 <= units[0] <= 3 then units else []
  {
    if |units| == 0 then []
    else
      var u := units[|units| - 1];
      ValidUnits(units[..|units| - 1]) + (if 1 <= u <= 3 then [u] else [])
  }

  /** A factor is kept exactly when it is among the inputs and between 1 and 3. */
  lemma {:induction false} ValidUnitsMembers(units: seq<int>, u: int)
    ensures u in ValidUnits(units) <==> u in units && 1 <= u <= 3
  {
    if |units| > 0 {
      var init := units[..|units| - 1];
      ValidUnitsMembers(init, u);
      assert units == init + [units[|units| - 1]];
    }
  }

  /** Filtering two runs of factors is filtering each, in order: with the
      single-factor case of `ValidUnits`, the kept factors are those of
      `units` between 1 and 3, in the order of `units`. */
  lemma {:induction false} ValidUnitsAppend(xs: seq<int>, ys: seq<int>)
    ensures ValidUnits(xs + ys) == ValidUnits(xs) + ValidUnits(ys)
    decreases |ys|
  {
    if |ys| == 0 {
      assert xs + ys == xs;
    } else {
      var ys' := ys[..|ys| - 1];
      assert (xs + ys)[..|xs + ys| - 1] == xs + ys';
      assert (xs + ys)[|xs + ys| - 1] == ys[|ys| - 1];
      ValidUnitsAppend(xs, ys');
    }
  }

  /** Filtering keeps factors distinct. */
  lemma {:induction false} ValidUnitsDistinct(units: seq<int>)
    requires Distinct(units)
    ensures Distinct(ValidUnits(units))
  {
    if |units| > 0 {
      var init := units[..|units| - 1];
      var u := units[|units| - 1];
      assert Distinct(init);
      ValidUnitsDistinct(init);
      ValidUnitsMembers(init, u);
      assert u !in init;
    }
  }

  /** The manifest entry for the image of `asset` at factor `unit`: its file,
      a scale tag unless the side has a single image, and the dark appearance
      on the dark side. */
  function Entry(asset: Asset, unit: int, dark: bool): Image
    requires 1 <= unit <= 3
  {
    DefaultImage(asset.Filename(unit)).(
      scale := if |asset.images| == 1 then None else FromUnit(unit),
      appearances := if dark then Some([DarkAppearance()]) else None)
  }

  /** The entries `createContentFile` adds for one side, whose images have
      the factors `units` in map order; a factor `Scale.fromUnit` rejects adds
      none. */
  function EntriesFor(asset: Asset, units: seq<int>, dark: bool): (r: seq<Image>)
    ensures |r| == |ValidUnits(units)|
    ensures forall i :: 0 <= i < |r| ==> r[i] == Entry(asset, ValidUnits(units)[i], dark)
  {
    if |units| == 0 then []
    else
      var init := units[..|units| - 1];
      var u := units[|units| - 1];
      var prev := EntriesFor(asset, init, dark);
      var r := prev + (if 1 <= u <= 3 then [Entry(asset, u, dark)] else []);
      var kept := ValidUnits(units);
      assert kept == ValidUnits(init) + (if 1 <= u <= 3 then [u] else []);
      assert forall i :: 0 <= i < |r| ==> r[i] == Entry(asset, kept[i], dark) by {
        forall i | 0 <= i < |r|
          ensures r[i] == Entry(asset, kept[i], dark)
        {
          if i < |prev| {
            assert r[i] == prev[i] && kept[i] == ValidUnits(init)[i];
          } else {
            assert r[i] == Entry(asset, u, dark) && kept[i] == u;
          }
        }
      }
      r
  }

  /** The entries one side of an image set contributes. */
  function SideImages(side: Option<Asset>, dark: bool): (r: seq<Image>)
    ensures side.None? ==> r == []
    ensures side.Some? ==>
      && |r| == |ValidUnits(Keys(side.value.images))|
      && forall i :: 0 <= i < |r| ==> r[i] == Entry(side.value, ValidUnits(Keys(side.value.images))[i], dark)
  {
    match side
    case None => []
    case Some(asset) => EntriesFor(asset, Keys(asset.images), dark)
  }

  /** Every entry of a side: its file is the side's image at the entry's
      factor, it is tagged with that factor exactly when the side has more
      than one image, and it carries the dark appearance exactly on the dark
      side. */
  lemma SideEntryMeaning(asset: Asset, dark: bool, i: int)
    requires 0 <= i < |SideImages(Some(asset), dark)|
    ensures var e := SideImages(Some(asset), dark)[i];
      exists u ::
        && u in Keys(asset.images) && 1 <= u <= 3
        && e.filename == asset.Filename(u)
        && e.idiom == "universal"
        && (e.scale.None? <==> |asset.images| == 1)
        && (e.scale.Some? ==> e.scale.value.Unit() == u)
        && e.appearances == (if dark then Some([Appearance("dark", "luminosity")]) else None)
  {
    var units := Keys(asset.images);
    var u := ValidUnits(units)[i];
    ValidUnitsMembers(units, u);
  }

  /** No scale is dropped: every image of a side at factor 1, 2 or 3 has its
      entry. */
  lemma SideKeepsEveryScale(asset: Asset, dark: bool, u: int)
    requires u in Keys(asset.images) && 1 <= u <= 3
    ensures exists i ::
      && 0 <= i < |SideImages(Some(asset), dark)|
      && SideImages(Some(asset), dark)[i].filename == asset.Filename(u)
  {
    var units := Keys(asset.images);
    ValidUnitsMembers(units, u);
    var i :| 0 <= i < |ValidUnits(units)| && ValidUnits(units)[i] == u;
    assert SideImages(Some(asset), dark)[i].filename == asset.Filename(u);
  }

  /** The entries of one side name distinct files. */
  lemma SideFilenamesDistinct(asset: Asset, dark: bool, i: int, j: int)
    requires WellFormed(asset.images)
    requires 0 <= i < j < |SideImages(Some(asset), dark)|
    ensures SideImages(Some(asset), dark)[i].filename != SideImages(Some(asset), dark)[j].filename
  {
    var units := ValidUnits(Keys(asset.images));
    ValidUnitsDistinct(Keys(asset.images));
    if asset.Filename(units[i]) == asset.Filename(units[j]) {
      FilenameInjective(asset, units[i], units[j]);
    }
  }

  /** `createContentFile`: the light entries, then the dark entries, and the
      default info. */
  function ContentsFor(g: GroupedAsset): (r: Contents)
    ensures r.info == Info(1, "xcode")
    ensures |r.images| == |SideImages(g.light, false)| + |SideImages(g.dark, true)|
    ensures forall i :: 0 <= i < |r.images| ==>
      (r.images[i].appearances.None? <==> i < |SideImages(g.light, false)|)
    ensures r.images[..|SideImages(g.light, false)|] == SideImages(g.light, false)
    ensures r.images[|SideImages(g.light, false)|..] == SideImages(g.dark, true)
  {
    DefaultContents(SideImages(g.light, false) + SideImages(g.dark, true))
  }

  // ---------------------------------------------------------------------
  // The plan.

  /** One file the downloader writes: the image at `url`, under `filename`. */
  datatype Download = Download(url: string, filename: string)

  /** One image set folder: where it is, what is downloaded into it, and its
      manifest. */
  datatype ImagesetPlan = ImagesetPlan(directory: seq<string>, downloads: seq<Download>, contents: Contents)

  /** The catalog: its folder, its image sets, and its root manifest. */
  datatype CatalogPlan = CatalogPlan(directory: seq<string>, imagesets: seq<ImagesetPlan>, contents: Contents)

  /** `downloadAsset`: every image of the asset, in map order, whatever its
      factor. */
  function Downloads(side: Option<Asset>): (r: seq<Download>)
    ensures side.None? ==> r == []
    ensures side.Some? ==> |r| == |side.value.images|
    ensures side.Some? ==> forall i :: 0 <= i < |r| ==>
      r[i] == Download(side.value.images[i].1, side.value.Filename(side.value.images[i].0))
  {
    match side
    case None => []
    case Some(asset) =>
      seq(|asset.images|, i requires 0 <= i < |asset.images| =>
        Download(asset.images[i].1, asset.Filename(asset.images[i].0)))
  }

  /** The folder `<key>.imageset` for group `key`, with the light side's files
      downloaded before the dark side's. */
  function ImagesetFor(catalog: seq<string>, key: string, g: GroupedAsset): ImagesetPlan {
    ImagesetPlan(catalog + [key + ".imageset"], Downloads(g.light) + Downloads(g.dark), ContentsFor(g))
  }

  /** The image sets of the groups, in group order. */
  function Imagesets(catalog: seq<string>, groups: AssocList<string, GroupedAsset>): seq<ImagesetPlan> {
    seq(|groups|, i requires 0 <= i < |groups| => ImagesetFor(catalog, groups[i].0, groups[i].1))
  }

  /** The appearance settings, if any are configured. */
  function AppearancesOf(settings: Option<XcassetsSettings>): Option<Appearances> {
    if settings.Some? then settings.value.appearances else None
  }

  /** The catalog folder: `<outputName>.xcassets` under `outputPath`, and the
      output folder under that when one is named. */
  function CatalogDirectory(outputFolderName: Option<string>, outputName: string, outputPath: string): (dir: seq<string>)
    ensures |dir| == 2 + (if outputFolderName.Some? then 1 else 0)
    ensures dir[0] == outputPath && dir[1] == outputName + ".xcassets"
    ensures outputFolderName.Some? ==> dir[2] == outputFolderName.value
  {
    [outputPath, outputName + ".xcassets"] + (if outputFolderName.Some? then [outputFolderName.value] else [])
  }

  /** `exportXcassets`: one image set per group, in group order, inside the
      catalog folder, which gets a manifest with no images. */
  function ExportXcassets(
    assets: seq<Asset>,
    outputFolderName: Option<string>,
    outputName: string,
    outputPath: string,
    settings: Option<XcassetsSettings>): (r: CatalogPlan)
    ensures r.directory == CatalogDirectory(outputFolderName, outputName, outputPath)
    ensures r.contents.images == [] && r.contents.info == Info(1, "xcode")
    ensures var groups := GroupByAppearances(assets, AppearancesOf(settings));
      && |r.imagesets| == |groups|
      && forall i :: 0 <= i < |groups| ==>
        && r.imagesets[i].directory == r.directory + [groups[i].0 + ".imageset"]
        && r.imagesets[i].contents == ContentsFor(groups[i].1)
  {
    var catalog := CatalogDirectory(outputFolderName, outputName, outputPath);
    var groups := GroupByAppearances(assets, AppearancesOf(settings));
    CatalogPlan(catalog, Imagesets(catalog, groups), DefaultContents([]))
  }

  // ---------------------------------------------------------------------
  // Properties of the plan.

  /** Groups with distinct keys get distinct image set folders. */
  lemma ImagesetsDistinct(catalog: seq<string>, groups: AssocList<string, GroupedAsset>, i: int, j: int)
    requires WellFormed(groups)
    requires 0 <= i < j < |groups|
    ensures Imagesets(catalog, groups)[i].directory != Imagesets(catalog, groups)[j].directory
  {
    assert Keys(groups)[i] != Keys(groups)[j];
    FolderNamesDiffer(catalog, groups[i].0, groups[j].0);
  }

  /** Distinct keys name distinct folders. */
  lemma FolderNamesDiffer(catalog: seq<string>, k1: string, k2: string)
    requires k1 != k2
    ensures catalog + [k1 + ".imageset"] != catalog + [k2 + ".imageset"]
  {
    var d1 := catalog + [k1 + ".imageset"];
    var d2 := catalog + [k2 + ".imageset"];
    assert d1[|catalog|] == k1 + ".imageset" && d2[|catalog|] == k2 + ".imageset";
    assert (k1 + ".imageset")[..|k1|] == k1 && (k2 + ".imageset")[..|k2|] == k2;
  }

  /** Distinct image sets of a catalog have distinct folder paths, compared
      segment by segment as strings. */
  lemma ImagesetDirectoriesDistinct(
    assets: seq<Asset>, outputFolderName: Option<string>, outputName: string, outputPath: string,
    settings: Option<XcassetsSettings>, i: int, j: int)
    requires 0 <= i < j < |ExportXcassets(assets, outputFolderName, outputName, outputPath, settings).imagesets|
    ensures var r := ExportXcassets(assets, outputFolderName, outputName, outputPath, settings);
      r.imagesets[i].directory != r.imagesets[j].directory
  {
    var catalog := CatalogDirectory(outputFolderName, outputName, outputPath);
    var groups := GroupByAppearances(assets, AppearancesOf(settings));
    assert ExportXcassets(assets, outputFolderName, outputName, outputPath, settings).imagesets == Imagesets(catalog, groups);
    ImagesetsDistinct(catalog, groups, i, j);
  }

  /** The file of every entry of a side is one of the side's downloads. */
  lemma SideEntryDownloaded(side: Option<Asset>, dark: bool, i: int)
    requires 0 <= i < |SideImages(side, dark)|
    ensures exists m :: 0 <= m < |Downloads(side)| && Downloads(side)[m].filename == SideImages(side, dark)[i].filename
  {
    var asset := side.value;
    var u := ValidUnits(Keys(asset.images))[i];
    ValidUnitsMembers(Keys(asset.images), u);
    var m :| 0 <= m < |asset.images| && Keys(asset.images)[m] == u;
    assert SideImages(side, dark)[i].filename == asset.Filename(u);
    assert asset.images[m].0 == u;
    assert Downloads(side)[m].filename == asset.Filename(u);
  }

  /** Some download of `downloads` is recorded under `filename`. */
  predicate Downloaded(downloads: seq<Download>, filename: string) {
    exists m :: 0 <= m < |downloads| && downloads[m].filename == filename
  }

  /** Every entry of two runs of entries whose files are each downloaded by
      the matching run of downloads is downloaded by the two runs together. */
  lemma DownloadedAppend(light: seq<Image>, dark: seq<Image>, dl: seq<Download>, dd: seq<Download>, k: int)
    requires forall i :: 0 <= i < |light| ==> Downloaded(dl, light[i].filename)
    requires forall i :: 0 <= i < |dark| ==> Downloaded(dd, dark[i].filename)
    requires 0 <= k < |light + dark|
    ensures Downloaded(dl + dd, (light + dark)[k].filename)
  {
    if k < |light| {
      assert Downloaded(dl, light[k].filename);
      var m :| 0 <= m < |dl| && dl[m].filename == light[k].filename;
      assert (light + dark)[k] == light[k];
      assert (dl + dd)[m] == dl[m];
    } else {
      assert Downloaded(dd, dark[k - |light|].filename);
      var m :| 0 <= m < |dd| && dd[m].filename == dark[k - |light|].filename;
      assert (light + dark)[k] == dark[k - |light|];
      assert (dl + dd)[|dl| + m] == dd[m];
    }
  }

  /** Every file a manifest names is among the downloads the plan records
      for the same folder. */
  lemma ManifestNamesDownloadedFiles(catalog: seq<string>, key: string, g: GroupedAsset, k: int)
    requires 0 <= k < |ImagesetFor(catalog, key, g).contents.images|
    ensures var plan := ImagesetFor(catalog, key, g);
      exists m :: 0 <= m < |plan.downloads| && plan.downloads[m].filename == plan.contents.images[k].filename
  {
    var light := SideImages(g.light, false);
    var dark := SideImages(g.dark, true);
    forall i | 0 <= i < |light|
      ensures Downloaded(Downloads(g.light), light[i].filename)
    {
      SideEntryDownloaded(g.light, false, i);
    }
    forall i | 0 <= i < |dark|
      ensures Downloaded(Downloads(g.dark), dark[i].filename)
    {
      SideEntryDownloaded(g.dark, true, i);
    }
    assert ImagesetFor(catalog, key, g) == ImagesetPlan(catalog + [key + ".imageset"], Downloads(g.light) + Downloads(g.dark), DefaultContents(light + dark));
    DownloadedAppend(light, dark, Downloads(g.light), Downloads(g.dark), k);
  }

  /** Every asset has a group: the one of its key, which is its own name when
      no appearance settings are given. */
  lemma EveryAssetHasGroup(assets: seq<Asset>, settings: Option<XcassetsSettings>, a: Asset)
    requires a in assets
    ensures var key := if AppearancesOf(settings).Some? then KeyOf(AppearancesOf(settings).value, a) else a.name;
      key in Keys(GroupByAppearances(assets, AppearancesOf(settings)))
  {
    var n :| 0 <= n < |assets| && assets[n] == a;
    if AppearancesOf(settings).Some? {
      GroupExists(assets, AppearancesOf(settings).value, KeyOf(AppearancesOf(settings).value, a));
    } else {
      AssociateHasEveryName(assets, n);
    }
  }

  /** Every group key has its image set folder. */
  lemma ImagesetOfKey(catalog: seq<string>, groups: AssocList<string, GroupedAsset>, key: string)
    requires key in Keys(groups)
    ensures exists i :: 0 <= i < |groups| && Imagesets(catalog, groups)[i].directory == catalog + [key + ".imageset"]
  {
    var i :| 0 <= i < |groups| && Keys(groups)[i] == key;
    assert Imagesets(catalog, groups)[i].directory == catalog + [key + ".imageset"];
  }

  /** Every asset's key has an image set folder in the catalog. */
  lemma EveryAssetHasImageset(
    assets: seq<Asset>, outputFolderName: Option<string>, outputName: string, outputPath: string,
    settings: Option<XcassetsSettings>, a: Asset)
    requires a in assets
    ensures var r := ExportXcassets(assets, outputFolderName, outputName, outputPath, settings);
      var key := if AppearancesOf(settings).Some? then KeyOf(AppearancesOf(settings).value, a) else a.name;
      exists i :: 0 <= i < |r.imagesets| && r.imagesets[i].directory == r.directory + [key + ".imageset"]
  {
    var catalog := CatalogDirectory(outputFolderName, outputName, outputPath);
    var groups := GroupByAppearances(assets, AppearancesOf(settings));
    assert ExportXcassets(assets, outputFolderName, outputName, outputPath, settings) == CatalogPlan(catalog, Imagesets(catalog, groups), DefaultContents([]));
    EveryAssetHasGroup(assets, settings, a);
    var key := if AppearancesOf(settings).Some? then KeyOf(AppearancesOf(settings).value, a) else a.name;
    ImagesetOfKey(catalog, groups, key);
  }

  /** The appearances the grouping behaves as: the configured ones or, with
      none configured, `Appearances()`, which groups as no settings do. */
  function GroupingOf(settings: Option<XcassetsSettings>): Appearances {
    if AppearancesOf(settings).Some? then AppearancesOf(settings).value else DefaultAppearances()
  }

  /** Every configuration groups as its pattern grouping does. */
  lemma GroupingOfGroups(assets: seq<Asset>, settings: Option<XcassetsSettings>)
    ensures GroupByAppearances(assets, AppearancesOf(settings)) == GroupByPattern(assets, GroupingOf(settings))
  {
    if AppearancesOf(settings).None? {
      NoPatternsIsAssociate(assets, Suffix);
    }
  }

  /** The downloads of a group whose sides are its winners' assets. */
  lemma WinnerDownloads(assets: seq<Asset>, tags: seq<(string, Side)>, k: string, light: Option<Asset>, dark: Option<Asset>)
    requires |tags| == |assets|
    requires light.Some? <==> HasLightWinner(tags, k)
    requires forall w :: LightWins(tags, k, w) ==> light == Some(assets[w])
    requires dark.Some? <==> HasDarkWinner(tags, k)
    requires forall d :: DarkWins(tags, k, d) ==> dark == Some(assets[d])
    ensures forall w, d :: LightWins(tags, k, w) && DarkWins(tags, k, d) ==>
      Downloads(light) + Downloads(dark) == Downloads(Some(assets[w])) + Downloads(Some(assets[d]))
    ensures forall w :: LightWins(tags, k, w) && !HasDarkWinner(tags, k) ==>
      Downloads(light) + Downloads(dark) == Downloads(Some(assets[w]))
    ensures forall d :: DarkWins(tags, k, d) && !HasLightWinner(tags, k) ==>
      Downloads(light) + Downloads(dark) == Downloads(Some(assets[d]))
  {
    forall w | LightWins(tags, k, w) && !HasDarkWinner(tags, k)
      ensures Downloads(light) + Downloads(dark) == Downloads(Some(assets[w]))
    {
      assert Downloads(dark) == [];
    }
    forall d | DarkWins(tags, k, d) && !HasLightWinner(tags, k)
      ensures Downloads(light) + Downloads(dark) == Downloads(Some(assets[d]))
    {
      assert Downloads(light) == [];
    }
  }

  /** What an image set downloads: the files of the asset that wins its light
      side followed by those of the asset that wins its dark side, and of no
      other asset. An asset overwritten by a later one of the same key (a
      repeated name, a repeated light or dark variant, or a plain image
      replacing a dark variant) is downloaded by no image set of its key. */
  lemma ImagesetDownloadsWinners(
    assets: seq<Asset>, outputFolderName: Option<string>, outputName: string, outputPath: string,
    settings: Option<XcassetsSettings>, i: int)
    requires 0 <= i < |GroupByAppearances(assets, AppearancesOf(settings))|
    ensures var r := ExportXcassets(assets, outputFolderName, outputName, outputPath, settings);
      var ap := GroupingOf(settings);
      var tags := TagsOf(assets, ap);
      var k := GroupByAppearances(assets, AppearancesOf(settings))[i].0;
      && r.imagesets[i].directory == r.directory + [k + ".imageset"]
      && (HasLightWinner(tags, k) || HasDarkWinner(tags, k))
      && (forall w, d :: LightWins(tags, k, w) && DarkWins(tags, k, d) ==>
            r.imagesets[i].downloads == Downloads(Some(assets[w])) + Downloads(Some(assets[d])))
      && (forall w :: LightWins(tags, k, w) && !HasDarkWinner(tags, k) ==>
            r.imagesets[i].downloads == Downloads(Some(assets[w])))
      && (forall d :: DarkWins(tags, k, d) && !HasLightWinner(tags, k) ==>
            r.imagesets[i].downloads == Downloads(Some(assets[d])))
  {
    var ap := GroupingOf(settings);
    var groups := GroupByPattern(assets, ap);
    GroupingOfGroups(assets, settings);
    var catalog := CatalogDirectory(outputFolderName, outputName, outputPath);
    assert ExportXcassets(assets, outputFolderName, outputName, outputPath, settings).imagesets == Imagesets(catalog, groups);
    var k := groups[i].0;
    var tags := TagsOf(assets, ap);
    assert Get(groups, k) == Some(groups[i].1);
    assert Imagesets(catalog, groups)[i].downloads == Downloads(LightOf(groups, k)) + Downloads(DarkOf(groups, k));
    GroupLight(assets, ap, k);
    GroupDark(assets, ap, k);
    assert LightOf(groups, k).Some? || DarkOf(groups, k).Some? by {
      assert HasSide(Get(groups, k).value);
    }
    WinnerDownloads(assets, tags, k, LightOf(groups, k), DarkOf(groups, k));
  }
}
