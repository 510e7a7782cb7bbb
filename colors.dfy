/** The colour value the rasterizer and the shader build with `Color::new`:
    three 8-bit channel magnitudes. The colour arithmetic and packing that
    src/color.rs defines are not part of this model. */
module Colors {

  type Byte = x: int | 0 <= x < 256

  datatype Color = Color(r: Byte, g: Byte, b: Byte)

  const White: Color := Color(255, 255, 255)
}
