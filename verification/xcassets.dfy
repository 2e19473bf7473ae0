/** The `Contents.json` manifest of an asset catalog folder, as a datatype
    (exporter/xcassets/Xcassets.kt). Field names and values follow the
    "Image Set Type" page of Apple's Asset Catalog Format Reference; the JSON
    text itself is not modelled. */
module AssetCatalog {
  import opened Wrappers
  import opened Decimal

  /** `Info`: who wrote the manifest, in which format version. */
  datatype Info = Info(version: int, author: string)

  /** `Info()`. */
  function DefaultInfo(): Info {
    Info(1, "xcode")
  }

  /** `Appearance`: a trait the image is meant for, such as dark luminosity. */
  datatype Appearance = Appearance(value: string, appearance: string)

  /** `Appearance("dark")`: the kind is left at its default, luminosity. */
  function DarkAppearance(): Appearance {
    Appearance("dark", "luminosity")
  }

  /** `Scale`: the three display scales an image set distinguishes. */
  datatype Scale = X1 | X2 | X3 {

    /** The manifest spelling. */
    function SerialName(): string {
      match this
      case X1 => "1x"
      case X2 => "2x"
      case X3 => "3x"
    }

    /** The scale factor the variant stands for. */
    function Unit(): (u: int)
      ensures 1 <= u <= 3
    {
      match this
      case X1 => 1
      case X2 => 2
      case X3 => 3
    }
  }

  /** `Scale.fromUnit`: defined on 1, 2 and 3 only, where it inverts `Unit`. */
  function FromUnit(u: int): (r: Option<Scale>)
    ensures r.Some? <==> 1 <= u <= 3
    ensures r.Some? ==> r.value.Unit() == u
  {
    match u
    case 1 => Some(X1)
    case 2 => Some(X2)
    case 3 => Some(X3)
    case _ => None
  }

  /** Going from a scale to its factor and back is the identity, so distinct
      factors give distinct scales and every scale is reached. */
  lemma FromUnitRoundTrip(s: Scale)
    ensures FromUnit(s.Unit()) == Some(s)
  {
  }

  /** The manifest spelling of a scale is its factor in decimal and an `x`:
      the same text an image file name carries after its `@`. */
  lemma SerialNameIsUnit(s: Scale)
    ensures s.SerialName() == IntToString(s.Unit()) + "x"
  {
    match s
    case X1 => assert IntToString(1) == "1";
    case X2 => assert IntToString(2) == "2";
    case X3 => assert IntToString(3) == "3";
  }

  /** `Image`: one file of an image set and the traits it is used for. */
  datatype Image = Image(
    filename: string,
    idiom: string,
    scale: Option<Scale>,
    appearances: Option<seq<Appearance>>)

  /** `Image(filename)`: universal idiom, no scale, no appearance. */
  function DefaultImage(filename: string): Image {
    Image(filename, "universal", None, None)
  }

  /** `Contents`: the manifest of a catalog folder. */
  datatype Contents = Contents(images: seq<Image>, info: Info)

  /** `Contents(images)` with the default info; `Contents()` is
      `DefaultContents([])`. */
  function DefaultContents(images: seq<Image>): Contents {
    Contents(images, DefaultInfo())
  }
}
