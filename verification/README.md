# figma-xcassets: node selection, image resolution and catalog planning

This project models the core of figma-xcassets, a tool that exports images
from a Figma design file into an Xcode asset catalog (`.xcassets`). The
model covers three steps:

1. **Node selection** (`FigmaFetcher`).
   - Find the page (a direct `CANVAS` child of the document) and, optionally,
     a layer under it.
   - Walk the subtree. A node that passes the include/exclude/ready filter is
     taken whole. Otherwise the walk descends into its children.
2. **Image resolution** (`fetchSvgAssets`, `fetchPngAssets`).
   - SVG: one request at scale 1, and one single-image asset per node that
     received a URL.
   - PNG: one request per configured scale. The results are merged into one
     asset per node name, and each asset maps scale to URL.
3. **Catalog planning** (`XcassetsExporter`).
   - Group assets into light/dark image sets by a name suffix or prefix.
   - Build each image set's `Contents.json` image list.
   - Lay out the folders, downloads and manifests of the catalog.

Everything is pure functions over immutable datatypes:

- Kotlin's insertion-ordered maps (`mapOf`, `mutableMapOf`, `associate`,
  `map + pair`) are association lists (`AssocLists`). `Put` replaces a
  present key's value in place, or appends a new key.
- The document returned by `getFile` is an argument.
- The image API (`getImages`) is a function parameter. The fetch returns the
  requests it made beside the assets, so "one request per scale" and "no
  request when nothing is selected" can be stated.
- Regular-expression matching (`containsMatchIn`) is a function parameter.
- The effects of `exportXcassets` are a returned `CatalogPlan`:
  - directories as path segments;
  - downloads as (URL, file name) pairs;
  - manifests as `Contents` values.

The filter walk is characterised by paths, which are sequences of child
indices below the start node. Two subtrees can be equal as values, so
paths are what tell them apart. The PNG merge is characterised by the
sequence of URLs received (`Hit`s), and the suffix/prefix grouping by the
sequence of (key, side) tags of the assets.

Modules, in dependency order:

| file | module | models |
|---|---|---|
| wrappers.dfy | `Wrappers` | `Option`, `Result` |
| seqs.dfy | `Seqs` | distinctness and first-occurrence order of sequences |
| assoc.dfy | `AssocLists` | insertion-ordered maps |
| decimal.dfy | `Decimal` | decimal spelling of integers (string templates) |
| format.dfy | `Formats` | utils/Format.kt |
| asset.dfy | `Assets` | utils/Asset.kt |
| figma_file.dfy | `FigmaFile` | figma/FigmaFile.kt |
| configuration.dfy | `Configuration` | configuration/Configuration.kt (datatypes, defaults) |
| tree_selection.dfy | `TreeSelection` | `getChildNode`, `matchesPatterns`, `filterNodes` |
| image_resolution.dfy | `ImageResolution` | `fetchSvgAssets`, `fetchPngAssets`, `toFigmaFormat` |
| figma_fetcher.dfy | `FigmaFetcher` | `fetchAssets(resource)` |
| xcassets.dfy | `AssetCatalog` | exporter/xcassets/Xcassets.kt |
| appearance_grouping.dfy | `AppearanceGrouping` | `groupByAppearances`, `groupBySuffix`, `groupByPrefix` |
| xcassets_exporter.dfy | `CatalogExport` | `createContentFile`, `exportXcassets`, file names written by `Downloader` |

## Model

| member | source | states |
|---|---|---|
| `TreeSelection.MatchesPatterns` | app/src/main/kotlin/figma/FigmaFetcher.kt:63-71 | A name matches exactly when some include pattern matches it and no exclude pattern does, so an empty include list never matches. |
| `TreeSelection.AnyMatches` | app/src/main/kotlin/figma/FigmaFetcher.kt:68-69 | `any` over the patterns holds exactly when some pattern contains a match in the name. |
| `TreeSelection.GetChildNode` | app/src/main/kotlin/figma/FigmaFetcher.kt:38-42 | Returns absent exactly when no direct child has the name (and the type, when one is given). Otherwise it returns a child that has them, and no earlier child does. |
| `TreeSelection.FirstWanted` | app/src/main/kotlin/figma/FigmaFetcher.kt:39-41 | `firstOrNull`: the first element satisfying the child test, or absent exactly when none does. |
| `TreeSelection.FilterNodes` | app/src/main/kotlin/figma/FigmaFetcher.kt:44-61 | Every returned node passes the filter: the name matches the patterns, and the node is ready for development when only ready nodes are wanted. |
| `TreeSelection.FilterChildren` | app/src/main/kotlin/figma/FigmaFetcher.kt:57-59 | Every node of the concatenated child selections passes the filter. |
| `TreeSelection.FilterNodesSelectsTopmostMatches` | app/src/main/kotlin/figma/FigmaFetcher.kt:44-61 | The walk returns exactly the nodes at the paths that pass the filter with no passing node above them up to the start node. Each appears once, at the path it lies at, and in document order. |
| `TreeSelection.PrecedesIsStrictAndUnrelated` | app/src/main/kotlin/figma/FigmaFetcher.kt:54-60 | Two paths in document order are distinct and neither is a prefix of the other, so no returned node is an ancestor of another. |
| `TreeSelection.EmptyIncludesSelectNothing` | app/src/main/kotlin/figma/FigmaFetcher.kt:50-59 | With no include pattern, the walk selects nothing however deep the tree is. |
| `TreeSelection.FilterPathsLeadToNodes` | app/src/main/kotlin/figma/FigmaFetcher.kt:54-60 | The i-th path of the reference selection leads from the start node to the i-th node the walk returns. |
| `TreeSelection.FilterPathsSelected` | app/src/main/kotlin/figma/FigmaFetcher.kt:50-56 | Every path of the selection passes the filter, and no node above it does. |
| `TreeSelection.SelectedInFilterPaths` | app/src/main/kotlin/figma/FigmaFetcher.kt:54-60 | Every passing node with no passing ancestor is in the selection: no match is missed. |
| `TreeSelection.FilterPathsInOrder` | app/src/main/kotlin/figma/FigmaFetcher.kt:57-59 | The selection is in document order, because the children's results are concatenated in child order. |
| `FigmaFetcher.StartNode` | app/src/main/kotlin/figma/FigmaFetcher.kt:19-25 | PageNotFound exactly when no direct child of the document is a CANVAS with the page name. Otherwise only the first such page counts: with no layer named the result is that page; with a layer named, the fetch fails with LayerNotFound for that layer exactly when no child of that page has the name, and otherwise yields the first child of that page with it. |
| `FigmaFetcher.FetchAssets` | app/src/main/kotlin/figma/FigmaFetcher.kt:16-36 | The fetch fails exactly when the start node is missing, with the same error. An empty selection yields no assets and makes no request. Every request asks for the selected ids in selection order. Every asset has the configured format and is named after a selected node. |
| `FigmaFetcher.FetchedNamesFromNodes` | app/src/main/kotlin/figma/FigmaFetcher.kt:73-82 | For either format, every request asks for the ids of the nodes given, and every asset is named after one of them. |
| `FigmaFetcher.DefaultResourceSelectsNothing` | app/src/main/kotlin/configuration/Configuration.kt:30-40 | A resource left at its defaults has no include pattern, so the fetch either fails to find the page or yields no assets without any request. |
| `FigmaFetcher.DefaultPngOptionsRequestScaleOne` | app/src/main/kotlin/configuration/Configuration.kt:43-46 | A PNG resource with the default scales makes exactly one request, at scale 1. |
| `ImageResolution.ToFigmaFormat` | app/src/main/kotlin/figma/FigmaFetcher.kt:127-130 | The API format has the raw value spelled like the configured format. |
| `ImageResolution.Ids` | app/src/main/kotlin/figma/FigmaFetcher.kt:88 | The ids asked for are the nodes' ids, one per node, in node order. |
| `ImageResolution.SvgAssetsMeaning` | app/src/main/kotlin/figma/FigmaFetcher.kt:91-95 | Every asset is the single-image scale-1 SVG asset of a node that received a URL. Every node that received a URL has its asset. No node is dropped exactly when every node received a URL. |
| `ImageResolution.SvgAssetsConcat` | app/src/main/kotlin/figma/FigmaFetcher.kt:91-95 | The SVG assets of two runs of nodes are those of each run in order, so the result follows node order. |
| `ImageResolution.FetchSvgAssets` | app/src/main/kotlin/figma/FigmaFetcher.kt:84-96 | Exactly one request, for all the ids, as SVG at scale 1. Each asset is an SVG named after a node, with one image at scale 1, and there are at most as many assets as nodes. |
| `ImageResolution.IndexOfPng` | app/src/main/kotlin/figma/FigmaFetcher.kt:112 | `indexOfFirst`: the first index of a PNG asset with the name, or absent exactly when there is none. |
| `ImageResolution.FetchPngAssets` | app/src/main/kotlin/figma/FigmaFetcher.kt:105-107 | One request per entry of `scales`, in order, each for all the ids as PNG at that scale. |
| `ImageResolution.FetchImages` | app/src/main/kotlin/figma/FigmaFetcher.kt:73-82 | Every asset has the requested format. SVG makes its single request and PNG makes one per scale. |
| `ImageResolution.PngAssetsSpec` | app/src/main/kotlin/figma/FigmaFetcher.kt:98-125 | One PNG asset per node name that received any URL, in first-seen order. Each asset's scales are those at which a node of its name received a URL, in first-seen order. Each scale holds the last URL received for it. |
| `ImageResolution.PngScaleOrderIrrelevant` | app/src/main/kotlin/figma/FigmaFetcher.kt:105-121 | Two scale lists with the same scales, in any order and with any repetition, give assets to the same names. An asset of a given name has the same scales with the same URL at each, provided the API answers a request the same way each time. Only the order of the assets and of their scales may differ. |
| `ImageResolution.FetchPngIsMergeOfAllHits` | app/src/main/kotlin/figma/FigmaFetcher.kt:105-122 | The pass-by-pass loop merges every received URL, scale after scale and node after node within a pass. |
| `ImageResolution.MergePassIsMergeHits` | app/src/main/kotlin/figma/FigmaFetcher.kt:109-121 | One pass merges the URLs it receives in node order; nodes without a URL are skipped. |
| `ImageResolution.MergeHitsAppend` | app/src/main/kotlin/figma/FigmaFetcher.kt:105-122 | Merging two runs of URLs is merging the first run and then the second. |
| `ImageResolution.MergeHitsKeepsMergedFrom` | app/src/main/kotlin/figma/FigmaFetcher.kt:110-119 | The merge invariant holds after any sequence of URLs. |
| `ImageResolution.MergeUrlNew` | app/src/main/kotlin/figma/FigmaFetcher.kt:113-114 | A URL for a name not seen yet appends a one-image PNG asset and keeps the invariant. |
| `ImageResolution.MergeUrlExisting` | app/src/main/kotlin/figma/FigmaFetcher.kt:115-118 | A URL for a name already seen replaces or adds that scale in the existing asset's images and keeps the invariant. |
| `ImageResolution.PutKeepsDedup` | app/src/main/kotlin/figma/FigmaFetcher.kt:117 | Adding a scale to images whose scales are the first occurrences of a sequence gives the first occurrences of that sequence extended by the scale. |
| `AssocLists.Put` | app/src/main/kotlin/figma/FigmaFetcher.kt:117 | `map + (key to value)`: a present key keeps its place and takes the new value, and a new key is appended. Every other key keeps its value. |
| `AssocLists.Get` | app/src/main/kotlin/exporter/xcassets/XcasssetsExporter.kt:124 | A lookup is absent exactly when the key is not in the map. Otherwise it returns a value stored under the key, and the only one when keys are distinct. |
| `AssocLists.PutWellFormed` | app/src/main/kotlin/exporter/xcassets/XcasssetsExporter.kt:125 | Putting keeps the keys distinct. |
| `Seqs.DedupSnoc` | app/src/main/kotlin/exporter/xcassets/XcasssetsExporter.kt:117-138 | The first occurrences of a sequence extended by one element gain that element exactly when it is new. |
| `Seqs.DedupOrder` | app/src/main/kotlin/figma/FigmaFetcher.kt:112-114 | First occurrences keep the order in which the elements first occur. |
| `Seqs.DedupMembers` | app/src/main/kotlin/figma/FigmaFetcher.kt:112-114 | The first occurrences contain exactly the elements of the sequence. |
| `Formats.FileExtensionInjective` | app/src/main/kotlin/utils/Format.kt:13-17 | The two formats have different extensions. |
| `Decimal.ParseNatToString` | app/src/main/kotlin/utils/Asset.kt:9 | Reading back the decimal spelling of a number gives the number. |
| `Decimal.IntToStringInjective` | app/src/main/kotlin/utils/Asset.kt:9 | Distinct integers have distinct decimal spellings. |
| `Assets.FilenameAtOne` | app/src/main/kotlin/utils/Asset.kt:8-10 | The file name is the asset name followed by the extension exactly when the scale is 1. |
| `Assets.FilenameScaled` | app/src/main/kotlin/utils/Asset.kt:9-10 | At any other scale the file name is name, `@`, the decimal scale, `x` and the extension. |
| `Assets.FilenameInjective` | app/src/main/kotlin/utils/Asset.kt:8-11 | Within one asset, distinct scales are written to distinct files. |
| `FigmaFile.ReadyForDevExactlyWithStatus` | app/src/main/kotlin/figma/FigmaFile.kt:12-28 | A node is ready for development exactly when it has a status, since READY_FOR_DEV is the only one. A node decoded without status or children has none. |
| `AssetCatalog.FromUnit` | app/src/main/kotlin/exporter/xcassets/Xcassets.kt:42-49 | Defined exactly on 1, 2 and 3, where it gives the scale of that factor. |
| `AssetCatalog.FromUnitRoundTrip` | app/src/main/kotlin/exporter/xcassets/Xcassets.kt:32-50 | From a scale to its factor and back is the identity, so `fromUnit` is injective where defined and reaches every scale. |
| `AssetCatalog.SerialNameIsUnit` | app/src/main/kotlin/exporter/xcassets/Xcassets.kt:33-39 | A scale's manifest spelling is its factor in decimal followed by `x`. |
| `AppearanceGrouping.Strip` | app/src/main/kotlin/exporter/xcassets/XcasssetsExporter.kt:123 | Removing a pattern the name carries leaves a base name that, joined with the pattern, gives back the name. |
| `AppearanceGrouping.StripJoin` | app/src/main/kotlin/exporter/xcassets/XcasssetsExporter.kt:147-148 | A name built from a base and a pattern carries the pattern, and removing it gives back the base. |
| `AppearanceGrouping.ClassifyMeaning` | app/src/main/kotlin/exporter/xcassets/XcasssetsExporter.kt:121-134 | A name is a light variant exactly when it carries the light pattern, and a dark variant exactly when it carries the dark pattern but not the light one. The key joined with the pattern gives back the name. A plain image is keyed by its whole name. |
| `AppearanceGrouping.Updated` | app/src/main/kotlin/exporter/xcassets/XcasssetsExporter.kt:124-133 | The group an asset leaves behind always has a variant. |
| `AppearanceGrouping.PlaceSides` | app/src/main/kotlin/exporter/xcassets/XcasssetsExporter.kt:122-134 | Placing an asset touches its own group only. A light variant or plain image sets the light side. A dark variant sets the dark side and keeps the light one. A plain image clears the dark side. |
| `AppearanceGrouping.GroupByPattern` | app/src/main/kotlin/exporter/xcassets/XcasssetsExporter.kt:116-164 | The groups form a map with distinct keys, and every group has at least one variant. |
| `AppearanceGrouping.PlaceKeepsGroups` | app/src/main/kotlin/exporter/xcassets/XcasssetsExporter.kt:119-136 | One iteration keeps the keys distinct and every group non-empty. |
| `AppearanceGrouping.GroupKeys` | app/src/main/kotlin/exporter/xcassets/XcasssetsExporter.kt:116-139 | The group keys are the assets' keys in first-occurrence order, one group per key. |
| `AppearanceGrouping.GroupExists` | app/src/main/kotlin/exporter/xcassets/XcasssetsExporter.kt:141-164 | A group exists for a key exactly when some asset has that key. |
| `AppearanceGrouping.GroupLight` | app/src/main/kotlin/exporter/xcassets/XcasssetsExporter.kt:116-139 | A group's light side is present exactly when some asset wins it. The winner is the last non-dark asset of the key that only dark variants of the key follow, and it is the light side. |
| `AppearanceGrouping.GroupDark` | app/src/main/kotlin/exporter/xcassets/XcasssetsExporter.kt:141-164 | A group's dark side is present exactly when some asset wins it. The winner is the last dark variant of the key that only light variants of the key follow, and it is the dark side. |
| `AppearanceGrouping.WinsSameKey` | app/src/main/kotlin/exporter/xcassets/XcasssetsExporter.kt:132-134 | After an asset of the key, it wins the sides it sets. The old winner of a side it keeps stays. After a plain image, nothing wins the dark side. |
| `AppearanceGrouping.WinsOtherKey` | app/src/main/kotlin/exporter/xcassets/XcasssetsExporter.kt:119-136 | An asset of another key changes no winner. |
| `AppearanceGrouping.Associate` | app/src/main/kotlin/exporter/xcassets/XcasssetsExporter.kt:112 | Without settings the groups form a map with distinct keys, each group light-only. |
| `AppearanceGrouping.AssociateByName` | app/src/main/kotlin/exporter/xcassets/XcasssetsExporter.kt:112 | Without settings, the group of a name is the light-only group of the last asset with that name. |
| `AppearanceGrouping.AssociateHasEveryName` | app/src/main/kotlin/exporter/xcassets/XcasssetsExporter.kt:112 | Without settings, every asset name has a group. |
| `AppearanceGrouping.GroupByAppearances` | app/src/main/kotlin/exporter/xcassets/XcasssetsExporter.kt:105-114 | Whatever the settings, the groups form a map with distinct keys and every group has a variant. |
| `AppearanceGrouping.NoPatternsIsAssociate` | app/src/main/kotlin/exporter/xcassets/XcasssetsExporter.kt:109-113 | With neither pattern set, in either mode, the grouping is the one made without settings. |
| `AppearanceGrouping.DefaultAppearancesGroupByName` | app/src/main/kotlin/configuration/Configuration.kt:62-66 | `Appearances()` left at its defaults groups exactly as no settings do. |
| `AppearanceGrouping.LightDarkPair` | app/src/main/kotlin/exporter/xcassets/XcasssetsExporter.kt:122-131 | In suffix mode, a light variant followed by the dark variant of the same base make a single image set under that base name, holding both. |
| `CatalogExport.ValidUnits` | app/src/main/kotlin/exporter/xcassets/XcasssetsExporter.kt:73 | Only factors 1 to 3 survive `Scale.fromUnit`, and a single factor is kept exactly when it is one of them. |
| `CatalogExport.ValidUnitsAppend` | app/src/main/kotlin/exporter/xcassets/XcasssetsExporter.kt:72-73 | Filtering two runs of factors is filtering each in turn, so the kept factors keep the map order of the images. |
| `CatalogExport.ValidUnitsMembers` | app/src/main/kotlin/exporter/xcassets/XcasssetsExporter.kt:72-73 | A factor gets an entry exactly when the side has an image at it and it is between 1 and 3. |
| `CatalogExport.EntriesFor` | app/src/main/kotlin/exporter/xcassets/XcasssetsExporter.kt:72-81 | One entry per accepted factor, in map order. |
| `CatalogExport.SideImages` | app/src/main/kotlin/exporter/xcassets/XcasssetsExporter.kt:72-92 | A missing side contributes nothing. A present side contributes one entry per accepted factor of its images, in map order. |
| `CatalogExport.SideEntryMeaning` | app/src/main/kotlin/exporter/xcassets/XcasssetsExporter.kt:74-89 | Each entry names the side's file at a factor (1, 2 or 3) the side has, with idiom universal. It has a scale tag, of that factor, exactly when the side has more than one image. It carries the dark luminosity appearance exactly on the dark side. |
| `CatalogExport.SideKeepsEveryScale` | app/src/main/kotlin/exporter/xcassets/XcasssetsExporter.kt:72-80 | No scale is dropped: every image at factor 1, 2 or 3 has its entry. |
| `CatalogExport.SideFilenamesDistinct` | app/src/main/kotlin/exporter/xcassets/XcasssetsExporter.kt:72-92 | The entries of one side name distinct files. |
| `CatalogExport.ContentsFor` | app/src/main/kotlin/exporter/xcassets/XcasssetsExporter.kt:70-95 | The manifest lists the light entries and then the dark ones, with version 1 and author xcode. Exactly the light entries have no appearance. |
| `CatalogExport.Downloads` | app/src/main/kotlin/utils/Downloader.kt:14-26 | One file per image of the side, in map order, named after its scale, at whatever factor. |
| `CatalogExport.CatalogDirectory` | app/src/main/kotlin/exporter/xcassets/XcasssetsExporter.kt:34-38 | The catalog folder is `<outputName>.xcassets` under the output path, with the output folder under that when one is named. |
| `CatalogExport.ExportXcassets` | app/src/main/kotlin/exporter/xcassets/XcasssetsExporter.kt:34-53 | The catalog folder gets a manifest with no images and the default info. There is one image set per group, in group order, in the folder `<key>.imageset` of the catalog, with that group's manifest. |
| `CatalogExport.ImagesetDirectoriesDistinct` | app/src/main/kotlin/exporter/xcassets/XcasssetsExporter.kt:44-45 | Distinct image sets get distinct folder paths, compared segment by segment as strings, because group keys are distinct. Whether two such paths name one folder on disk is outside the model (see "Left out"). |
| `CatalogExport.EveryAssetHasImageset` | app/src/main/kotlin/exporter/xcassets/XcasssetsExporter.kt:42-51 | Every asset's key has an image set folder. The key is the asset's own name when no appearance settings are given. Whether the asset's own files are downloaded there is stated by `ImagesetDownloadsWinners`. |
| `CatalogExport.ImagesetDownloadsWinners` | app/src/main/kotlin/exporter/xcassets/XcasssetsExporter.kt:42-48 | Image set `i` of the plan, in the folder of its key, downloads the files of the asset that wins the key's light side, then those of the asset that wins its dark side, and no other asset's. Every image set has at least one winner. A winner is the last asset to set that side with no later asset of the key replacing it (lines 112 and 122-134). |
| `CatalogExport.ManifestNamesDownloadedFiles` | app/src/main/kotlin/exporter/xcassets/XcasssetsExporter.kt:44-50 | Every file a manifest names is among the downloads the plan records for the same folder. Whether the write succeeds is outside the model (see "Left out"). |

## Left out

- `getFile` and `getImages` (figma/FigmaApiClient.kt): HTTP and URL building. The document is an argument, and the image API is a function from a request to the id-to-URL map it returns.
- `maxDepth`: a parameter of `getFile`, so it limits the document the model receives, not anything the model computes.
- `Downloader.downloadAsset`: its HTTP fetches, byte writes and per-image error catching are effects. The plan records which URL goes to which file name. A failed download is not modelled.
- `createDir`, `Path.resolve` and `createDirectories`: a folder is a sequence of path segments. Path normalisation (`.`, `..`, absolute paths) is not modelled.
- `/` in names: an asset or group name is one path segment here, even when it contains `/`, as Figma component names such as `Icons/Arrow` do. In the program, `Path.resolve` splits the name into folders.
  - The image set folder becomes `Icons/Arrow.imageset`.
  - `downloadAsset` writes to `Arrow.imageset/Icons/Arrow.png`, whose parent folder is never created.
  - Every such write then fails, and the `catch` in Downloader.kt swallows the failure.
  - The manifest still names those files.
  - `ManifestNamesDownloadedFiles` speaks of the downloads the plan records, not of files that exist.
- File system case and Unicode folding: folder paths are compared as exact strings. On a case-insensitive or normalising volume (the macOS default), keys such as `Logo` and `logo` name one folder. The later image set's downloads and `Contents.json` then overwrite the earlier one's. `ImagesetDirectoriesDistinct` promises distinct path strings only.
- `createDirContentFile` and `createContentFile`: the pretty-printed JSON text is not modelled, only the `Contents` value it encodes.
- `Regex(...).containsMatchIn`: regular-expression semantics and exceptions from malformed patterns are not modelled. The matcher is a parameter.
- `Configuration.decode`: file reading and JSON decoding.
- RawExporter, App, Main, Program and Logger: orchestration, command line, per-resource error reporting and logging.
- `suspend` functions and coroutines: the logic is sequential.
- Integer width: scale factors are unbounded integers. The source never does arithmetic on them, so the 32-bit width of Kotlin's `Int` changes nothing modelled.
- `CatalogExport.SideFilenamesDistinct`: requires the asset's images to have distinct scales. A Kotlin `Map` guarantees this by construction. The `Asset` datatype here allows any association list, and the PNG and SVG resolutions only ever build ones with distinct keys.
- Default-valued constructors: the calls (`Image(filename)`, `Appearance("dark")`, `Contents()`, `Info()`) are plain functions (`DefaultImage`, `DarkAppearance`, `DefaultContents`, `DefaultInfo`). Their fields are stated by `SideEntryMeaning`, `ContentsFor` and `ExportXcassets`, not by lemmas of their own.
- `FigmaFetcher.FetchAssets`: which nodes the assets come from is stated by `SvgAssetsMeaning` and `SvgAssetsConcat` for SVG and by `PngAssetsSpec` for PNG. The fetch's own contract keeps only the error, the empty selection, the requests, names and formats.
- File key: an `ImageRequest` carries no file key. The image API stands for the API of one file, the resource's `fileKey`, which `getFile` and `getImages` both receive.
- Repeated requests: the image API is a function, so two identical requests (`scales = [2, 2]`) get the same answer. Over HTTP the two answers may differ; the model does not cover that.
- Overwritten assets: grouping is not a partition of the assets. An asset overwritten by a later one with the same key is in no image set and is not downloaded. This happens with `associate` on a repeated name, a repeated light or dark variant, or a plain image after a dark variant. `CatalogExport.ImagesetDownloadsWinners` states which assets an image set downloads.
