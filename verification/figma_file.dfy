/** The document tree and image-lookup response returned by the Figma API
    (figma/FigmaFile.kt). */
module FigmaFile {
  import opened Wrappers

  /** `FigmaDevStatusType`: its only variant. */
  datatype DevStatusType = ReadyForDev

  /** `FigmaDevStatus`. */
  datatype DevStatus = DevStatus(statusType: DevStatusType)

  /** `FigmaNode`: a node of the document tree. The node type is the API's
      open-ended string tag. */
  datatype Node = Node(
    id: string,
    name: string,
    nodeType: string,
    children: seq<Node>,
    devStatus: Option<DevStatus>)
  {
    /** The readiness test of the tree selector: the status is present and
        is READY_FOR_DEV. */
    predicate IsReadyForDev() {
      match devStatus
      case Some(s) => s.statusType == ReadyForDev
      case None => false
    }
  }

  /** A node decoded without `children` or `devStatus`: the defaults apply. */
  function DecodedNode(id: string, name: string, nodeType: string): Node {
    Node(id, name, nodeType, [], None)
  }

  /** A node the API sent without a status is never ready, and a node with a
      status is always ready, since READY_FOR_DEV is the only status. */
  lemma ReadyForDevExactlyWithStatus(n: Node)
    ensures n.IsReadyForDev() <==> n.devStatus.Some?
    ensures !DecodedNode(n.id, n.name, n.nodeType).IsReadyForDev()
    ensures DecodedNode(n.id, n.name, n.nodeType).children == []
  {
  }

  /** `FigmaFile`. */
  datatype File = File(name: string, document: Node)

  /** `FigmaImages`: each node id has at most one image URL, by the map type. */
  datatype FigmaImages = FigmaImages(images: map<string, string>) {

    /** `images[id]`. */
    function UrlFor(id: string): (r: Option<string>)
      ensures r.Some? <==> id in images
      ensures r.Some? ==> images[id] == r.value
    {
      if id in images then Some(images[id]) else None
    }
  }

  /** `FigmaType`: the node types the fetcher looks up, with their tags. */
  datatype FigmaType = Canvas {
    function Tag(): string {
      match this
      case Canvas => "CANVAS"
    }
  }

  /** `FigmaFormat`: the formats the image API renders. */
  datatype FigmaFormat = FigmaPNG | FigmaSVG {
    function RawValue(): string {
      match this
      case FigmaPNG => "png"
      case FigmaSVG => "svg"
    }
  }
}
