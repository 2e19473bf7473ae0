/** The image formats an asset can be exported in (utils/Format.kt). */
module Formats {

  /** `Format`: exactly two variants. */
  datatype Format = PNG | SVG {

    /** The spelling used in configuration files. */
    function SerialName(): string {
      match this
      case PNG => "png"
      case SVG => "svg"
    }

    /** `fileExtension`: the dot and then the format's own name. */
    function FileExtension(): (ext: string)
      ensures ext == "." + SerialName()
      ensures |ext| == 4
    {
      match this
      case PNG => ".png"
      case SVG => ".svg"
    }
  }

  /** The two formats write files with different extensions. */
  lemma FileExtensionInjective(a: Format, b: Format)
    requires a.FileExtension() == b.FileExtension()
    ensures a == b
  {
    assert a.FileExtension()[1] == b.FileExtension()[1];
  }
}
