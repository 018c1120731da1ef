/** The drawing calls the core makes on the display's drawing context. The
    glyph rendering and the transfer to the panel belong to the display
    library; the model records each call as a value instead. */
module Surface {
  import opened HexIcon

  /** `draw.text((x, y), text)` or `draw.bitmap((x, y), icon)`. */
  datatype DrawOp =
    | DrawText(x: int, y: int, text: string)
    | DrawBitmap(x: int, y: int, icon: Bitmap)

  /** The calls made inside one `with canvas(device) as draw:` block, which
      the display shows as one frame. */
  type Screen = seq<DrawOp>
}
