/** `FigmaFetcher.fetchAssets(resource)`: find the page (and layer) to start
    from, select the nodes to export, and resolve them to image URLs
    (figma/FigmaFetcher.kt). The document comes from `getFile`, which is not
    part of this model; it is an argument here. */
module FigmaFetcher {
  import opened Wrappers
  import opened Formats
  import opened FigmaFile
  import opened Configuration
  import opened TreeSelection
  import opened ImageResolution

  /** `PageNotFoundException` and `LayerNotFoundException`. */
  datatype FetchError = PageNotFound(name: string) | LayerNotFound(name: string)

  /** The filter arguments `fetchAssets` passes to `filterNodes`. */
  function CriteriaOf(resource: Resource, contains: Matcher): Criteria {
    Criteria(resource.readyToDevOnly, resource.includePatterns, resource.excludePatterns, contains)
  }

  /** A page of the document: a direct child of type CANVAS. */
  predicate IsPageNamed(node: Node, name: string) {
    node.name == name && node.nodeType == "CANVAS"
  }

  /** `i` is the first direct child of `document` that is a page named `name`. */
  predicate IsFirstPage(document: Node, name: string, i: int) {
    && 0 <= i < |document.children|
    && IsPageNamed(document.children[i], name)
    && forall j :: 0 <= j < i ==> !IsPageNamed(document.children[j], name)
  }

  /** `j` is the first of `nodes` named `name`, whatever its type. */
  predicate IsFirstNamed(nodes: seq<Node>, name: string, j: int) {
    && 0 <= j < |nodes|
    && nodes[j].name == name
    && forall k :: 0 <= k < j ==> nodes[k].name != name
  }

  /** The node the walk starts from: the first page named `pageName`, or, when
      a layer is named, the first direct child of that page with that name,
      whatever its type. Only the first page of that name is searched for
      the layer. */
  function StartNode(resource: Resource, document: Node): (r: Result<Node, FetchError>)
    ensures r == Failure(PageNotFound(resource.pageName)) <==>
      forall i :: 0 <= i < |document.children| ==> !IsPageNamed(document.children[i], resource.pageName)
    ensures forall i | IsFirstPage(document, resource.pageName, i) ::
      var page := document.children[i];
      match resource.layerName
      case None => r == Success(page)
      case Some(layer) =>
        && (r.Failure? <==> forall j :: 0 <= j < |page.children| ==> page.children[j].name != layer)
        && (r.Failure? ==> r.error == LayerNotFound(layer))
        && (r.Success? ==> exists j :: IsFirstNamed(page.children, layer, j) && r.value == page.children[j])
  {
    match GetChildNode(resource.pageName, Some(Canvas), document)
    case None => Failure(PageNotFound(resource.pageName))
    case Some(page) =>
      assert forall i | IsFirstPage(document, resource.pageName, i) :: document.children[i] == page by {
        forall i | IsFirstPage(document, resource.pageName, i)
          ensures document.children[i] == page
        {
          var i' :| && 0 <= i' < |document.children| && document.children[i'] == page
                    && IsWantedChild(page, resource.pageName, Some(Canvas))
                    && forall j :: 0 <= j < i' ==> !IsWantedChild(document.children[j], resource.pageName, Some(Canvas));
          assert !(i < i') && !(i' < i);
        }
      }
      match resource.layerName
      case None => Success(page)
      case Some(layer) =>
        match GetChildNode(layer, None, page)
        case None => Failure(LayerNotFound(layer))
        case Some(node) => Success(node)
  }

  /** `fetchAssets(resource)`: an empty selection yields no assets and makes no
      image request; otherwise every request asks for the selected node ids,
      in selection order, and every asset is named after a selected node and
      has the configured format. */
  function FetchAssets(resource: Resource, document: Node, contains: Matcher, api: ImageApi): (r: Result<Resolution, FetchError>)
    ensures r.Failure? <==> StartNode(resource, document).Failure?
    ensures r.Failure? ==> r.error == StartNode(resource, document).error
    ensures r.Success? ==>
      var nodes := FilterNodes(StartNode(resource, document).value, CriteriaOf(resource, contains));
      && (|nodes| == 0 ==> r.value == Resolution([], []))
      && (forall k :: 0 <= k < |r.value.requests| ==> r.value.requests[k].ids == Ids(nodes))
      && (forall a :: a in r.value.assets ==> a.format == resource.exportOptions.format)
      && (forall a :: a in r.value.assets ==> exists i :: 0 <= i < |nodes| && a.name == nodes[i].name)
  {
    var start :- StartNode(resource, document);
    var nodes := FilterNodes(start, CriteriaOf(resource, contains));
    if |nodes| == 0 then Success(Resolution([], []))
    else
      var options := resource.exportOptions;
      var res := FetchImages(nodes, options.format, options.scales, api);
      FetchedNamesFromNodes(nodes, options.format, options.scales, api);
      Success(res)
  }

  /** Every resolved asset is named after one of the nodes asked for. */
  lemma FetchedNamesFromNodes(nodes: seq<Node>, format: Format, scales: seq<int>, api: ImageApi)
    ensures forall k :: 0 <= k < |FetchImages(nodes, format, scales, api).requests| ==>
      FetchImages(nodes, format, scales, api).requests[k].ids == Ids(nodes)
    ensures forall a :: a in FetchImages(nodes, format, scales, api).assets ==>
      exists i :: 0 <= i < |nodes| && a.name == nodes[i].name
  {
    if format == PNG {
      var r := FetchPngAssets(nodes, scales, api).assets;
      PngAssetsSpec(nodes, scales, api);
      PngNamesFromNodes(nodes, scales, api);
      forall a | a in r
        ensures exists i :: 0 <= i < |nodes| && a.name == nodes[i].name
      {
        var k :| 0 <= k < |r| && r[k] == a;
        assert AssetNames(r)[k] == a.name;
        Seqs.DedupElement(HitNames(AllHits(nodes, scales, api)), k);
      }
    }
  }

  /** Every URL a PNG pass receives belongs to one of the nodes asked for. */
  lemma {:induction false} PngNamesFromNodes(nodes: seq<Node>, scales: seq<int>, api: ImageApi)
    ensures forall n :: n in HitNames(AllHits(nodes, scales, api)) ==>
      exists i :: 0 <= i < |nodes| && n == nodes[i].name
  {
    if |scales| > 0 {
      var scale := scales[|scales| - 1];
      PngNamesFromNodes(nodes, scales[..|scales| - 1], api);
      PassNamesFromNodes(nodes, api(ImageRequest(Ids(nodes), FigmaPNG, scale)), scale);
      var a := AllHits(nodes, scales[..|scales| - 1], api);
      var b := PassHits(nodes, api(ImageRequest(Ids(nodes), FigmaPNG, scale)), scale);
      assert HitNames(a + b) == HitNames(a) + HitNames(b);
    }
  }

  lemma {:induction false} PassNamesFromNodes(nodes: seq<Node>, images: FigmaImages, scale: int)
    ensures forall n :: n in HitNames(PassHits(nodes, images, scale)) ==>
      exists i :: 0 <= i < |nodes| && n == nodes[i].name
  {
    if |nodes| > 0 {
      var init := nodes[..|nodes| - 1];
      PassNamesFromNodes(init, images, scale);
      var a := PassHits(init, images, scale);
      var b := PassHits(nodes, images, scale);
      assert HitNames(b)[..|a|] == HitNames(a);
      forall n | n in HitNames(b)
        ensures exists i :: 0 <= i < |nodes| && n == nodes[i].name
      {
        var k :| 0 <= k < |HitNames(b)| && HitNames(b)[k] == n;
        if k < |a| {
          assert HitNames(a)[k] == n;
          assert n in HitNames(a);
          var i :| 0 <= i < |init| && n == init[i].name;
          assert nodes[i] == init[i];
        } else {
          assert n == nodes[|nodes| - 1].name;
        }
      }
    }
  }

  /** With `includePatterns` left at its default (empty), nothing is
      selected: the fetch fails to find the page or yields no assets, without
      any image request. */
  lemma DefaultResourceSelectsNothing(fileKey: string, pageName: string, document: Node, contains: Matcher, api: ImageApi)
    ensures var r := FetchAssets(DefaultResource(fileKey, pageName), document, contains, api);
      r == Failure(PageNotFound(pageName)) || r == Success(Resolution([], []))
  {
    var resource := DefaultResource(fileKey, pageName);
    var start := StartNode(resource, document);
    if start.Success? {
      EmptyIncludesSelectNothing(start.value, CriteriaOf(resource, contains));
    }
  }

  /** With the default export options of a PNG resource, one request is made,
      at scale 1. */
  lemma DefaultPngOptionsRequestScaleOne(nodes: seq<Node>, api: ImageApi)
    ensures var options := DefaultExportOptions(PNG);
      FetchImages(nodes, options.format, options.scales, api).requests == [ImageRequest(Ids(nodes), FigmaPNG, 1)]
  {
    var r := FetchPngAssets(nodes, [1], api);
    assert |r.requests| == 1;
  }
}
