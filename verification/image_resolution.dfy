/** Resolution of the selected nodes to image URLs through the image API,
    and the merge of several PNG passes into one asset per node name
    (figma/FigmaFetcher.kt). */
module ImageResolution {
  import opened Wrappers
  import opened Seqs
  import opened AssocLists
  import opened Formats
  import opened Assets
  import opened FigmaFile

  /** One call of `getImages` for the resource's file: the node ids, the
      format and the scale asked for. */
  datatype ImageRequest = ImageRequest(ids: seq<string>, format: FigmaFormat, scale: int)

  /** The image API, for a fixed file: what it answers to each request. */
  type ImageApi = ImageRequest -> FigmaImages

  /** The assets resolved, with the requests made to get them in call order. */
  datatype Resolution = Resolution(assets: seq<Asset>, requests: seq<ImageRequest>)

  /** `Format.toFigmaFormat()`: the API format spelled as the configured one. */
  function ToFigmaFormat(f: Format): (r: FigmaFormat)
    ensures r.RawValue() == f.SerialName()
  {
    match f
    case PNG => FigmaPNG
    case SVG => FigmaSVG
  }

  /** `nodes.map { it.id }`. */
  function Ids(nodes: seq<Node>): (ids: seq<string>)
    ensures |ids| == |nodes|
    ensures forall i :: 0 <= i < |nodes| ==> ids[i] == nodes[i].id
  {
    seq(|nodes|, i requires 0 <= i < |nodes| => nodes[i].id)
  }

  // ---------------------------------------------------------------------
  // SVG

  /** The SVG asset for a node whose image URL is `url`. */
  function SvgAsset(node: Node, url: string): Asset {
    Asset(node.name, SVG, [(1, url)])
  }

  /** `nodes.mapNotNull { ... }` in `fetchSvgAssets`: the asset of each node,
      in node order. */
  function SvgAssets(nodes: seq<Node>, images: FigmaImages): (r: seq<Asset>)
    ensures |r| <= |nodes|
  {
    if |nodes| == 0 then []
    else SvgAssets(nodes[..|nodes| - 1], images) + SvgOf(nodes[|nodes| - 1], images)
  }

  /** What `SvgAssets` keeps: one single-image asset at scale 1 for each node
      that received a URL, and nothing else; no node is dropped exactly when
      every node received a URL. */
  lemma {:induction false} SvgAssetsMeaning(nodes: seq<Node>, images: FigmaImages)
    ensures forall a :: a in SvgAssets(nodes, images) ==>
      exists i :: 0 <= i < |nodes| && nodes[i].id in images.images && a == SvgAsset(nodes[i], images.images[nodes[i].id])
    ensures forall i :: 0 <= i < |nodes| && nodes[i].id in images.images ==>
      SvgAsset(nodes[i], images.images[nodes[i].id]) in SvgAssets(nodes, images)
    ensures |SvgAssets(nodes, images)| == |nodes| <==> forall i :: 0 <= i < |nodes| ==> nodes[i].id in images.images
  {
    if |nodes| > 0 {
      var init := nodes[..|nodes| - 1];
      var last := nodes[|nodes| - 1];
      SvgAssetsMeaning(init, images);
      assert forall i :: 0 <= i < |init| ==> init[i] == nodes[i];
      assert SvgAssets(nodes, images) == SvgAssets(init, images) + SvgOf(last, images);
    }
  }

  /** The asset one node contributes: one if it received a URL, none
      otherwise. */
  function SvgOf(node: Node, images: FigmaImages): seq<Asset> {
    match images.UrlFor(node.id)
    case Some(url) => [SvgAsset(node, url)]
    case None => []
  }

  /** The SVG assets of two runs of nodes are those of each run, in order:
      the result follows node order. */
  lemma {:induction false} SvgAssetsConcat(xs: seq<Node>, ys: seq<Node>, images: FigmaImages)
    ensures SvgAssets(xs + ys, images) == SvgAssets(xs, images) + SvgAssets(ys, images)
    decreases |ys|
  {
    if |ys| == 0 {
      assert xs + ys == xs;
    } else {
      var ys' := ys[..|ys| - 1];
      var last := ys[|ys| - 1];
      assert (xs + ys)[..|xs + ys| - 1] == xs + ys';
      assert (xs + ys)[|xs + ys| - 1] == last;
      SvgAssetsConcat(xs, ys', images);
    }
  }

  /** `fetchSvgAssets`: one request for all node ids, as SVG at scale 1. */
  function FetchSvgAssets(nodes: seq<Node>, api: ImageApi): (res: Resolution)
    ensures res.requests == [ImageRequest(Ids(nodes), FigmaSVG, 1)]
    ensures forall a :: a in res.assets ==> a.format == SVG && |a.images| == 1 && a.images[0].0 == 1
    ensures forall a :: a in res.assets ==> exists i :: 0 <= i < |nodes| && a.name == nodes[i].name
    ensures |res.assets| <= |nodes|
  {
    var request := ImageRequest(Ids(nodes), ToFigmaFormat(SVG), 1);
    SvgAssetsMeaning(nodes, api(request));
    Resolution(SvgAssets(nodes, api(request)), [request])
  }

  // ---------------------------------------------------------------------
  // PNG

  /** `assets.indexOfFirst { it.name == name && it.format == Format.PNG }`. */
  function IndexOfPng(assets: seq<Asset>, name: string): (r: Option<nat>)
    ensures r.None? <==> forall i :: 0 <= i < |assets| ==> !(assets[i].name == name && assets[i].format == PNG)
    ensures r.Some? ==> r.value < |assets| && assets[r.value].name == name && assets[r.value].format == PNG
    ensures r.Some? ==> forall i :: 0 <= i < r.value ==> !(assets[i].name == name && assets[i].format == PNG)
  {
    if |assets| == 0 then None
    else if assets[0].name == name && assets[0].format == PNG then Some(0)
    else match IndexOfPng(assets[1..], name) {
      case Some(k) => Some(k + 1)
      case None => None
    }
  }

  /** The body of `nodes.forEach` in `fetchPngAssets`, for a node named `name`
      that received `url` at `scale`: a new asset, or the scale added to (or
      replaced in) the images of the existing one. */
  function MergeUrl(assets: seq<Asset>, name: string, scale: int, url: string): seq<Asset> {
    match IndexOfPng(assets, name)
    case None => assets + [Asset(name, PNG, [(scale, url)])]
    case Some(k) => assets[k := assets[k].(images := Put(assets[k].images, scale, url))]
  }

  /** One pass of `fetchPngAssets`: every node, in order, at one scale. */
  function MergePass(assets: seq<Asset>, nodes: seq<Node>, images: FigmaImages, scale: int): seq<Asset> {
    if |nodes| == 0 then assets
    else
      var merged := MergePass(assets, nodes[..|nodes| - 1], images, scale);
      var last := nodes[|nodes| - 1];
      match images.UrlFor(last.id)
      case Some(url) => MergeUrl(merged, last.name, scale, url)
      case None => merged
  }

  /** `fetchPngAssets`: one request per entry of `scales`, in order, each
      followed by a merge pass. */
  function FetchPngAssets(nodes: seq<Node>, scales: seq<int>, api: ImageApi): (res: Resolution)
    ensures |res.requests| == |scales|
    ensures forall i :: 0 <= i < |scales| ==> res.requests[i] == ImageRequest(Ids(nodes), FigmaPNG, scales[i])
  {
    if |scales| == 0 then Resolution([], [])
    else
      var prev := FetchPngAssets(nodes, scales[..|scales| - 1], api);
      var scale := scales[|scales| - 1];
      var request := ImageRequest(Ids(nodes), ToFigmaFormat(PNG), scale);
      Resolution(MergePass(prev.assets, nodes, api(request), scale), prev.requests + [request])
  }

  /** `fetchAssets(fileKey, nodes, exportOptions)`: dispatch on the format. */
  function FetchImages(nodes: seq<Node>, format: Format, scales: seq<int>, api: ImageApi): (res: Resolution)
    ensures forall a :: a in res.assets ==> a.format == format
    ensures format == SVG ==> res.requests == [ImageRequest(Ids(nodes), FigmaSVG, 1)]
    ensures format == PNG ==> |res.requests| == |scales|
  {
    match format
    case SVG => FetchSvgAssets(nodes, api)
    case PNG =>
      PngAssetsSpec(nodes, scales, api);
      FetchPngAssets(nodes, scales, api)
  }

  // ---------------------------------------------------------------------
  // What the PNG merge computes, stated over the sequence of URLs received.

  /** A URL received: the node's name, the scale asked for, and the URL. */
  datatype Hit = Hit(name: string, scale: int, url: string)

  /** The URLs one pass receives, in node order. */
  function PassHits(nodes: seq<Node>, images: FigmaImages, scale: int): seq<Hit> {
    if |nodes| == 0 then []
    else
      var last := nodes[|nodes| - 1];
      PassHits(nodes[..|nodes| - 1], images, scale) + match images.UrlFor(last.id) {
        case Some(url) => [Hit(last.name, scale, url)]
        case None => []
      }
  }

  /** The URLs all passes receive, in the order they are merged. */
  function AllHits(nodes: seq<Node>, scales: seq<int>, api: ImageApi): seq<Hit> {
    if |scales| == 0 then []
    else
      var scale := scales[|scales| - 1];
      AllHits(nodes, scales[..|scales| - 1], api)
        + PassHits(nodes, api(ImageRequest(Ids(nodes), FigmaPNG, scale)), scale)
  }

  /** Merging a sequence of received URLs one after another. */
  function MergeHits(assets: seq<Asset>, hits: seq<Hit>): seq<Asset> {
    if |hits| == 0 then assets
    else
      var h := hits[|hits| - 1];
      MergeUrl(MergeHits(assets, hits[..|hits| - 1]), h.name, h.scale, h.url)
  }

  function HitNames(hits: seq<Hit>): (r: seq<string>)
    ensures |r| == |hits|
    ensures forall i :: 0 <= i < |hits| ==> r[i] == hits[i].name
  {
    seq(|hits|, i requires 0 <= i < |hits| => hits[i].name)
  }

  /** The scales at which a node named `name` received a URL, in order. */
  function ScalesFor(hits: seq<Hit>, name: string): seq<int> {
    if |hits| == 0 then []
    else
      var h := hits[|hits| - 1];
      ScalesFor(hits[..|hits| - 1], name) + if h.name == name then [h.scale] else []
  }

  /** The last URL a node named `name` received at `scale`. */
  function LastUrl(hits: seq<Hit>, name: string, scale: int): Option<string> {
    if |hits| == 0 then None
    else
      var h := hits[|hits| - 1];
      if h.name == name && h.scale == scale then Some(h.url)
      else LastUrl(hits[..|hits| - 1], name, scale)
  }

  function AssetNames(assets: seq<Asset>): (r: seq<string>)
    ensures |r| == |assets|
    ensures forall i :: 0 <= i < |assets| ==> r[i] == assets[i].name
  {
    seq(|assets|, i requires 0 <= i < |assets| => assets[i].name)
  }

  /** A pass merges the URLs it receives, in node order. */
  lemma {:induction false} MergePassIsMergeHits(assets: seq<Asset>, nodes: seq<Node>, images: FigmaImages, scale: int)
    ensures MergePass(assets, nodes, images, scale) == MergeHits(assets, PassHits(nodes, images, scale))
  {
    if |nodes| > 0 {
      var init := nodes[..|nodes| - 1];
      var last := nodes[|nodes| - 1];
      MergePassIsMergeHits(assets, init, images, scale);
      var ph := PassHits(init, images, scale);
      match images.UrlFor(last.id)
      case Some(url) =>
        var hs := ph + [Hit(last.name, scale, url)];
        assert PassHits(nodes, images, scale) == hs;
        assert hs[..|hs| - 1] == ph;
        assert MergeHits(assets, hs) == MergeUrl(MergeHits(assets, ph), last.name, scale, url);
      case None =>
        assert PassHits(nodes, images, scale) == ph;
    }
  }

  /** Merging two runs of URLs is merging the first, then the second. */
  lemma {:induction false} MergeHitsAppend(assets: seq<Asset>, xs: seq<Hit>, ys: seq<Hit>)
    ensures MergeHits(assets, xs + ys) == MergeHits(MergeHits(assets, xs), ys)
    decreases |ys|
  {
    if |ys| == 0 {
      assert xs + ys == xs;
    } else {
      var ys' := ys[..|ys| - 1];
      assert (xs + ys)[..|xs + ys| - 1] == xs + ys';
      assert (xs + ys)[|xs + ys| - 1] == ys[|ys| - 1];
      MergeHitsAppend(assets, xs, ys');
    }
  }

  /** `fetchPngAssets` merges every URL it receives, pass after pass. */
  lemma {:induction false} FetchPngIsMergeOfAllHits(nodes: seq<Node>, scales: seq<int>, api: ImageApi)
    ensures FetchPngAssets(nodes, scales, api).assets == MergeHits([], AllHits(nodes, scales, api))
  {
    if |scales| > 0 {
      var init := scales[..|scales| - 1];
      var scale := scales[|scales| - 1];
      var images := api(ImageRequest(Ids(nodes), FigmaPNG, scale));
      FetchPngIsMergeOfAllHits(nodes, init, api);
      MergePassIsMergeHits(FetchPngAssets(nodes, init, api).assets, nodes, images, scale);
      MergeHitsAppend([], AllHits(nodes, init, api), PassHits(nodes, images, scale));
    }
  }

  /** The invariant the PNG merge keeps, in four parts. */
  ghost predicate MergedFrom(r: seq<Asset>, hits: seq<Hit>) {
    NamesFrom(r, hits) && AllPng(r) && ScalesFrom(r, hits) && UrlsFrom(r, hits)
  }

  /** One asset per name that received a URL, in first-seen order. */
  ghost predicate NamesFrom(r: seq<Asset>, hits: seq<Hit>) {
    AssetNames(r) == Dedup(HitNames(hits))
  }

  ghost predicate AllPng(r: seq<Asset>) {
    forall i :: 0 <= i < |r| ==> r[i].format == PNG
  }

  /** Each asset's scales are those its name received a URL at, first-seen order. */
  ghost predicate ScalesFrom(r: seq<Asset>, hits: seq<Hit>) {
    forall i :: 0 <= i < |r| ==> Keys(r[i].images) == Dedup(ScalesFor(hits, r[i].name))
  }

  /** Each asset holds, per scale, the last URL its name received there. */
  ghost predicate UrlsFrom(r: seq<Asset>, hits: seq<Hit>) {
    forall i, s :: 0 <= i < |r| ==> Get(r[i].images, s) == LastUrl(hits, r[i].name, s)
  }

  lemma {:induction false} UnseenName(hits: seq<Hit>, name: string)
    requires name !in HitNames(hits)
    ensures ScalesFor(hits, name) == []
    ensures forall s :: LastUrl(hits, name, s).None?
  {
    if |hits| > 0 {
      var init := hits[..|hits| - 1];
      assert forall i :: 0 <= i < |init| ==> HitNames(init)[i] == HitNames(hits)[i];
      assert hits[|hits| - 1].name == HitNames(hits)[|hits| - 1];
      UnseenName(init, name);
    }
  }

  lemma DedupSingle<T>(x: T)
    ensures Dedup([x]) == [x]
  {
    assert [x][..0] == [];
  }

  lemma HitNamesSnoc(hits: seq<Hit>, h: Hit)
    ensures HitNames(hits + [h]) == HitNames(hits) + [h.name]
  {
  }

  lemma ScalesForSnoc(hits: seq<Hit>, h: Hit, n: string)
    ensures ScalesFor(hits + [h], n) == ScalesFor(hits, n) + if h.name == n then [h.scale] else []
  {
    var hits' := hits + [h];
    assert hits'[..|hits'| - 1] == hits;
  }

  lemma LastUrlSnoc(hits: seq<Hit>, h: Hit, n: string, s: int)
    ensures LastUrl(hits + [h], n, s) == if h.name == n && h.scale == s then Some(h.url) else LastUrl(hits, n, s)
  {
    var hits' := hits + [h];
    assert hits'[..|hits'| - 1] == hits;
  }

  /** Merging a URL for a name not seen before appends a new asset. */
  lemma MergeUrlNew(r: seq<Asset>, hits: seq<Hit>, h: Hit)
    requires MergedFrom(r, hits)
    requires IndexOfPng(r, h.name).None?
    ensures MergedFrom(r + [Asset(h.name, PNG, [(h.scale, h.url)])], hits + [h])
  {
    assert h.name !in AssetNames(r);
    DedupMembers(HitNames(hits));
    assert h.name !in HitNames(hits);
    UnseenName(hits, h.name);
    MergeUrlNewNames(r, hits, h);
    MergeUrlNewScales(r, hits, h);
    MergeUrlNewUrls(r, hits, h);
  }

  lemma MergeUrlNewNames(r: seq<Asset>, hits: seq<Hit>, h: Hit)
    requires NamesFrom(r, hits)
    requires h.name !in AssetNames(r)
    ensures NamesFrom(r + [Asset(h.name, PNG, [(h.scale, h.url)])], hits + [h])
  {
    var r' := r + [Asset(h.name, PNG, [(h.scale, h.url)])];
    HitNamesSnoc(hits, h);
    DedupSnoc(HitNames(hits), h.name);
    assert AssetNames(r') == AssetNames(r) + [h.name];
  }

  lemma MergeUrlNewScales(r: seq<Asset>, hits: seq<Hit>, h: Hit)
    requires ScalesFrom(r, hits)
    requires h.name !in AssetNames(r)
    requires ScalesFor(hits, h.name) == []
    ensures ScalesFrom(r + [Asset(h.name, PNG, [(h.scale, h.url)])], hits + [h])
  {
    var hits' := hits + [h];
    var added := Asset(h.name, PNG, [(h.scale, h.url)]);
    var r' := r + [added];
    forall i | 0 <= i < |r|
      ensures Keys(r'[i].images) == Dedup(ScalesFor(hits', r'[i].name))
    {
      assert r'[i] == r[i];
      assert r[i].name == AssetNames(r)[i];
      OtherNameScales(hits, h, r[i].name);
    }
    ScalesForSnoc(hits, h, h.name);
    assert ScalesFor(hits', h.name) == [h.scale];
    assert Keys(added.images) == [h.scale];
    DedupSingle(h.scale);
  }

  lemma OtherNameScales(hits: seq<Hit>, h: Hit, n: string)
    requires n != h.name
    ensures ScalesFor(hits + [h], n) == ScalesFor(hits, n)
  {
    ScalesForSnoc(hits, h, n);
    assert ScalesFor(hits, n) + [] == ScalesFor(hits, n);
  }

  lemma MergeUrlNewUrls(r: seq<Asset>, hits: seq<Hit>, h: Hit)
    requires UrlsFrom(r, hits)
    requires h.name !in AssetNames(r)
    requires forall s :: LastUrl(hits, h.name, s).None?
    ensures UrlsFrom(r + [Asset(h.name, PNG, [(h.scale, h.url)])], hits + [h])
  {
    var hits' := hits + [h];
    var r' := r + [Asset(h.name, PNG, [(h.scale, h.url)])];
    forall i, s | 0 <= i < |r'|
      ensures Get(r'[i].images, s) == LastUrl(hits', r'[i].name, s)
    {
      LastUrlSnoc(hits, h, r'[i].name, s);
      if i < |r| {
        assert r'[i] == r[i];
        assert r[i].name == AssetNames(r)[i];
      }
    }
  }

  /** Merging a URL for a name already seen updates that asset's images. */
  lemma MergeUrlExisting(r: seq<Asset>, hits: seq<Hit>, h: Hit, k: nat)
    requires MergedFrom(r, hits)
    requires k < |r| && r[k].name == h.name
    ensures MergedFrom(r[k := r[k].(images := Put(r[k].images, h.scale, h.url))], hits + [h])
  {
    var r' := r[k := r[k].(images := Put(r[k].images, h.scale, h.url))];
    assert Distinct(AssetNames(r));
    MergeUrlExistingNames(r, hits, h, k);
    MergeUrlExistingScales(r, hits, h, k);
    MergeUrlExistingUrls(r, hits, h, k);
    NewImagesKeepPng(r, k, Put(r[k].images, h.scale, h.url));
  }

  lemma NewImagesKeepPng(r: seq<Asset>, k: nat, images: AssocList<int, string>)
    requires AllPng(r) && k < |r|
    ensures AllPng(r[k := r[k].(images := images)])
  {
    var r' := r[k := r[k].(images := images)];
    assert forall i :: 0 <= i < |r'| ==> r'[i].format == r[i].format;
  }

  lemma MergeUrlExistingNames(r: seq<Asset>, hits: seq<Hit>, h: Hit, k: nat)
    requires NamesFrom(r, hits)
    requires k < |r| && r[k].name == h.name
    ensures NamesFrom(r[k := r[k].(images := Put(r[k].images, h.scale, h.url))], hits + [h])
  {
    var r' := r[k := r[k].(images := Put(r[k].images, h.scale, h.url))];
    assert h.name == AssetNames(r)[k];
    DedupMembers(HitNames(hits));
    assert h.name in HitNames(hits);
    HitNamesSnoc(hits, h);
    DedupSnoc(HitNames(hits), h.name);
    assert AssetNames(r') == AssetNames(r);
  }

  lemma MergeUrlExistingScales(r: seq<Asset>, hits: seq<Hit>, h: Hit, k: nat)
    requires ScalesFrom(r, hits)
    requires k < |r| && r[k].name == h.name
    requires Distinct(AssetNames(r))
    ensures ScalesFrom(r[k := r[k].(images := Put(r[k].images, h.scale, h.url))], hits + [h])
  {
    var hits' := hits + [h];
    var r' := r[k := r[k].(images := Put(r[k].images, h.scale, h.url))];
    forall i | 0 <= i < |r'| && i != k
      ensures Keys(r'[i].images) == Dedup(ScalesFor(hits', r'[i].name))
    {
      assert AssetNames(r)[i] != AssetNames(r)[k];
      assert r'[i] == r[i];
      OtherNameScales(hits, h, r[i].name);
    }
    ScalesForSnoc(hits, h, h.name);
    PutKeepsDedup(r[k].images, ScalesFor(hits, h.name), h.scale, h.url);
  }

  /** Adding a URL at scale `s` to images whose scales are the first
      occurrences of `sf` gives the first occurrences of `sf + [s]`. */
  lemma PutKeepsDedup(images: AssocList<int, string>, sf: seq<int>, s: int, url: string)
    requires Keys(images) == Dedup(sf)
    ensures Keys(Put(images, s, url)) == Dedup(sf + [s])
  {
    DedupSnoc(sf, s);
    DedupMembers(sf);
  }

  lemma MergeUrlExistingUrls(r: seq<Asset>, hits: seq<Hit>, h: Hit, k: nat)
    requires UrlsFrom(r, hits)
    requires k < |r| && r[k].name == h.name
    requires Distinct(AssetNames(r))
    ensures UrlsFrom(r[k := r[k].(images := Put(r[k].images, h.scale, h.url))], hits + [h])
  {
    var hits' := hits + [h];
    var r' := r[k := r[k].(images := Put(r[k].images, h.scale, h.url))];
    forall i, s | 0 <= i < |r'|
      ensures Get(r'[i].images, s) == LastUrl(hits', r'[i].name, s)
    {
      LastUrlSnoc(hits, h, r'[i].name, s);
      if i != k {
        assert AssetNames(r)[i] != AssetNames(r)[k];
        assert r'[i] == r[i];
      }
    }
  }

  lemma {:induction false} MergeHitsKeepsMergedFrom(hits: seq<Hit>)
    ensures MergedFrom(MergeHits([], hits), hits)
  {
    if |hits| == 0 {
      assert AssetNames([]) == [] == Dedup(HitNames([]));
    } else {
      var init := hits[..|hits| - 1];
      var h := hits[|hits| - 1];
      MergeHitsKeepsMergedFrom(init);
      var r := MergeHits([], init);
      assert init + [h] == hits;
      match IndexOfPng(r, h.name)
      case None => MergeUrlNew(r, init, h);
      case Some(k) => MergeUrlExisting(r, init, h, k);
    }
  }

  /** What `fetchPngAssets` yields, in terms of the URLs received pass after
      pass (`AllHits`): one PNG asset per node name that received any URL, in
      first-seen order; each asset's scales are exactly those at which a node
      of that name received a URL, in first-seen order; and each scale holds
      the last URL received for that name at that scale. */
  lemma PngAssetsSpec(nodes: seq<Node>, scales: seq<int>, api: ImageApi)
    ensures var r := FetchPngAssets(nodes, scales, api).assets;
      var hits := AllHits(nodes, scales, api);
      && AssetNames(r) == Dedup(HitNames(hits))
      && (forall i :: 0 <= i < |r| ==> r[i].format == PNG)
      && (forall i :: 0 <= i < |r| ==> Keys(r[i].images) == Dedup(ScalesFor(hits, r[i].name)))
      && (forall i, s :: 0 <= i < |r| ==> Get(r[i].images, s) == LastUrl(hits, r[i].name, s))
  {
    FetchPngIsMergeOfAllHits(nodes, scales, api);
    MergeHitsKeepsMergedFrom(AllHits(nodes, scales, api));
  }


  // ---------------------------------------------------------------------
  // The order of the scales does not matter.

  /** A pass at scale `t` receives URLs at scale `t` only. */
  lemma {:induction false} PassHitsAtScale(nodes: seq<Node>, images: FigmaImages, t: int, n: string, s: int)
    requires s != t
    ensures LastUrl(PassHits(nodes, images, t), n, s).None?
  {
    if |nodes| > 0 {
      var init := nodes[..|nodes| - 1];
      var last := nodes[|nodes| - 1];
      var tail := match images.UrlFor(last.id) {
        case Some(url) => [Hit(last.name, t, url)]
        case None => []
      };
      assert PassHits(nodes, images, t) == PassHits(init, images, t) + tail;
      PassHitsAtScale(init, images, t, n, s);
      LastUrlAppend(PassHits(init, images, t), tail, n, s);
    }
  }

  /** The last URL of two runs is the second run's, if it has one. */
  lemma {:induction false} LastUrlAppend(xs: seq<Hit>, ys: seq<Hit>, n: string, s: int)
    ensures LastUrl(xs + ys, n, s) == if LastUrl(ys, n, s).Some? then LastUrl(ys, n, s) else LastUrl(xs, n, s)
    decreases |ys|
  {
    if |ys| == 0 {
      assert xs + ys == xs;
    } else {
      var ys' := ys[..|ys| - 1];
      assert (xs + ys)[..|xs + ys| - 1] == xs + ys';
      assert (xs + ys)[|xs + ys| - 1] == ys[|ys| - 1];
      LastUrlAppend(xs, ys', n, s);
    }
  }

  /** The URL a name ends up with at `s` is the one the request for `s`
      answers, or none when `s` is not asked for. */
  lemma {:induction false} LastUrlAllHits(nodes: seq<Node>, scales: seq<int>, api: ImageApi, n: string, s: int)
    ensures LastUrl(AllHits(nodes, scales, api), n, s) ==
      if s in scales then LastUrl(PassHits(nodes, api(ImageRequest(Ids(nodes), FigmaPNG, s)), s), n, s) else None
  {
    if |scales| > 0 {
      var init := scales[..|scales| - 1];
      var t := scales[|scales| - 1];
      assert scales == init + [t];
      var pass := PassHits(nodes, api(ImageRequest(Ids(nodes), FigmaPNG, t)), t);
      LastUrlAllHits(nodes, init, api, n, s);
      LastUrlAppend(AllHits(nodes, init, api), pass, n, s);
      if t != s {
        PassHitsAtScale(nodes, api(ImageRequest(Ids(nodes), FigmaPNG, t)), t, n, s);
      }
    }
  }

  /** A name occurs in two runs exactly when it occurs in one of them. */
  lemma HitNamesAppend(xs: seq<Hit>, ys: seq<Hit>, n: string)
    ensures n in HitNames(xs + ys) <==> n in HitNames(xs) || n in HitNames(ys)
  {
    if n in HitNames(xs + ys) {
      var k :| 0 <= k < |xs + ys| && HitNames(xs + ys)[k] == n;
      if k < |xs| {
        assert HitNames(xs)[k] == n;
      } else {
        assert HitNames(ys)[k - |xs|] == n;
      }
    }
    if n in HitNames(xs) {
      var k :| 0 <= k < |xs| && HitNames(xs)[k] == n;
      assert HitNames(xs + ys)[k] == n;
    }
    if n in HitNames(ys) {
      var k :| 0 <= k < |ys| && HitNames(ys)[k] == n;
      assert HitNames(xs + ys)[|xs| + k] == n;
    }
  }

  /** A name receives a URL exactly when the request for some scale asked
      for answers one for a node of that name. */
  lemma {:induction false} NamesAllHits(nodes: seq<Node>, scales: seq<int>, api: ImageApi, n: string)
    ensures n in HitNames(AllHits(nodes, scales, api)) <==>
      exists t :: t in scales && n in HitNames(PassHits(nodes, api(ImageRequest(Ids(nodes), FigmaPNG, t)), t))
  {
    if |scales| == 0 {
      assert |HitNames(AllHits(nodes, scales, api))| == 0;
    } else {
      var init := scales[..|scales| - 1];
      var t := scales[|scales| - 1];
      assert scales == init + [t];
      NamesAllHits(nodes, init, api, n);
      HitNamesAppend(AllHits(nodes, init, api), PassHits(nodes, api(ImageRequest(Ids(nodes), FigmaPNG, t)), t), n);
    }
  }

  /** The PNG merge does not depend on the order of the scales, nor on a
      scale being listed twice: two lists with the same scales give assets to
      the same names, and an asset of a given name has the same scales with
      the same URL at each. Only the order of assets and of their scales may
      differ. */
  lemma PngScaleOrderIrrelevant(nodes: seq<Node>, scales: seq<int>, scales': seq<int>, api: ImageApi)
    requires forall s :: s in scales <==> s in scales'
    ensures var r := FetchPngAssets(nodes, scales, api).assets;
      var r' := FetchPngAssets(nodes, scales', api).assets;
      && (forall n :: n in AssetNames(r) <==> n in AssetNames(r'))
      && (forall i, j, s :: 0 <= i < |r| && 0 <= j < |r'| && r[i].name == r'[j].name ==>
            && Get(r[i].images, s) == Get(r'[j].images, s)
            && (s in Keys(r[i].images) <==> s in Keys(r'[j].images)))
  {
    var r := FetchPngAssets(nodes, scales, api).assets;
    var r' := FetchPngAssets(nodes, scales', api).assets;
    var hits := AllHits(nodes, scales, api);
    var hits' := AllHits(nodes, scales', api);
    PngAssetsSpec(nodes, scales, api);
    PngAssetsSpec(nodes, scales', api);
    DedupMembers(HitNames(hits));
    DedupMembers(HitNames(hits'));
    forall n
      ensures n in AssetNames(r) <==> n in AssetNames(r')
    {
      NamesAllHits(nodes, scales, api, n);
      NamesAllHits(nodes, scales', api, n);
    }
    forall i, j, s | 0 <= i < |r| && 0 <= j < |r'| && r[i].name == r'[j].name
      ensures Get(r[i].images, s) == Get(r'[j].images, s)
      ensures s in Keys(r[i].images) <==> s in Keys(r'[j].images)
    {
      LastUrlAllHits(nodes, scales, api, r[i].name, s);
      LastUrlAllHits(nodes, scales', api, r[i].name, s);
    }
  }
}
