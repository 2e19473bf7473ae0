/** A resolved asset: a node's name, its format, and one image URL per scale
    (utils/Asset.kt). */
module Assets {
  import opened AssocLists
  import opened Decimal
  import opened Formats

  /** `Asset`; `images` maps a scale factor to the URL of the image rendered at
      that scale, in insertion order. */
  datatype Asset = Asset(name: string, format: Format, images: AssocList<int, string>) {

    /** The part between the name and the extension: nothing at scale 1,
        `@<scale>x` otherwise. */
    function ScaleSuffix(scale: int): (s: string)
      ensures s == "" <==> scale == 1
    {
      if scale == 1 then "" else "@" + IntToString(scale) + "x"
    }

    /** `filename(scale)`: the file an image at `scale` is written to. */
    function Filename(scale: int): (f: string)
      ensures |f| >= |name| + |format.FileExtension()|
      ensures f[..|name|] == name
      ensures f[|f| - |format.FileExtension()|..] == format.FileExtension()
      ensures f[|name|..|f| - |format.FileExtension()|] == ScaleSuffix(scale)
    {
      name + ScaleSuffix(scale) + format.FileExtension()
    }
  }

  /** At scale 1 the file name is the asset name and the extension, and only
      then. */
  lemma FilenameAtOne(a: Asset, scale: int)
    ensures a.Filename(scale) == a.name + a.format.FileExtension() <==> scale == 1
  {
    var f := a.Filename(scale);
    var ext := a.format.FileExtension();
    if f == a.name + ext {
      assert f[|a.name|..|f| - |ext|] == "";
    }
  }

  /** Any other scale shows in the file name as `@`, its decimal value and `x`. */
  lemma FilenameScaled(a: Asset, scale: int)
    requires scale != 1
    ensures a.Filename(scale) == a.name + "@" + IntToString(scale) + "x" + a.format.FileExtension()
  {
    var f := a.Filename(scale);
    var ext := a.format.FileExtension();
    assert f == f[..|a.name|] + f[|a.name|..|f| - |ext|] + f[|f| - |ext|..];
  }

  /** Within one asset, distinct scales are written to distinct files. */
  lemma FilenameInjective(a: Asset, s1: int, s2: int)
    requires a.Filename(s1) == a.Filename(s2)
    ensures s1 == s2
  {
    var ext := a.format.FileExtension();
    var f := a.Filename(s1);
    var x1 := a.ScaleSuffix(s1);
    var x2 := a.ScaleSuffix(s2);
    assert x1 == x2;
    if s1 != 1 && s2 != 1 {
      assert x1[1..|x1| - 1] == IntToString(s1);
      assert x2[1..|x2| - 1] == IntToString(s2);
      IntToStringInjective(s1, s2);
    }
  }
}
