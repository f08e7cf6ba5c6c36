/** The value types shared by the palette engine: an RGB triple of 8-bit
    channels, a swatch (RGB plus its hex text) and the result of comparing
    two palettes. */
module Types {

  /** JavaScript's NaN is the only "absent" number the engine can produce;
      it is modelled as None. */
  datatype Option<+T> = None | Some(value: T)

  /** One 8-bit colour channel. */
  type Channel = x: int | 0 <= x <= 255

  /** An sRGB device colour. */
  datatype RGB = RGB(r: Channel, g: Channel, b: Channel)

  /** One palette entry: a colour and the text it is shown and exported as. */
  datatype Swatch = Swatch(rgb: RGB, hex: string)

  /** The outcome of comparing two palettes. A score of None stands for NaN;
      `labelText` is the source's `label` field (`label` is a Dafny keyword). */
  datatype Analysis = Analysis(score: Option<int>, labelText: string, description: string, bridgeColors: seq<Swatch>)
}
