/** The export configuration: what to fetch and how to write it
    (configuration/Configuration.kt). Only the datatypes and their defaults
    are modelled; decoding the configuration file is not. */
module Configuration {
  import opened Wrappers
  import opened Formats

  /** `AppearanceMode`. */
  datatype AppearanceMode = Suffix | Prefix

  /** `OutputFormat`. */
  datatype OutputFormat = Raw | Xcassets

  /** `Appearances`: how light and dark variants are recognised by name. */
  datatype Appearances = Appearances(
    mode: AppearanceMode,
    lightPattern: Option<string>,
    darkPattern: Option<string>)

  /** `XcassetsSettings`. */
  datatype XcassetsSettings = XcassetsSettings(appearances: Option<Appearances>)

  /** `ExportOptions`. */
  datatype ExportOptions = ExportOptions(format: Format, scales: seq<int>)

  /** `Resource`: one page (or layer) of one design file to export. */
  datatype Resource = Resource(
    fileKey: string,
    pageName: string,
    layerName: Option<string>,
    includePatterns: seq<string>,
    excludePatterns: seq<string>,
    exportOptions: ExportOptions,
    maxDepth: int,
    readyToDevOnly: bool,
    outputFolderName: Option<string>)

  /** `Configuration`. */
  datatype Configuration = Configuration(
    outputName: string,
    outputPath: string,
    outputFormat: OutputFormat,
    resources: seq<Resource>,
    xcassets: Option<XcassetsSettings>)

  /** `Appearances()` with every field left at its default. */
  function DefaultAppearances(): Appearances {
    Appearances(Suffix, None, None)
  }

  /** `ExportOptions(format)` with the default scales. */
  function DefaultExportOptions(format: Format): ExportOptions {
    ExportOptions(format, [1])
  }

  /** `Resource(fileKey, pageName)` with every other field at its default. */
  function DefaultResource(fileKey: string, pageName: string): Resource {
    Resource(fileKey, pageName, None, [], [], DefaultExportOptions(SVG), 3, false, None)
  }

  /** `Configuration(resources = ...)` with every other field at its default. */
  function DefaultConfiguration(resources: seq<Resource>): Configuration {
    Configuration("Assets", ".", Xcassets, resources, None)
  }
}
