/** The per-frame parameters the shaders read (`Uniforms`, src/main.rs) and the
    viewport matrix that takes normalized device coordinates to pixels
    (`create_viewport_matrix`). */
module Frame {
  import opened Glm

  /** The model, view, projection and viewport matrices and the elapsed time. */
  datatype Uniforms = Uniforms(model: Mat4, view: Mat4, projection: Mat4, viewport: Mat4, time: real)

  /** `create_viewport_matrix(width, height)`. */
  function ViewportMatrix(width: real, height: real): Mat4 {
    Mat4(
      Vec4(width / 2.0, 0.0, 0.0, width / 2.0),
      Vec4(0.0, -height / 2.0, 0.0, height / 2.0),
      Vec4(0.0, 0.0, 1.0, 0.0),
      Vec4(0.0, 0.0, 0.0, 1.0))
  }

  /** The viewport matrix scales x from [-1, 1] onto [0, width], flips y from
      [1, -1] onto [0, height], and keeps depth and the homogeneous 1. */
  lemma ViewportMapping(width: real, height: real, x: real, y: real, z: real)
    ensures MulVec4(ViewportMatrix(width, height), Vec4(x, y, z, 1.0))
      == Vec4((x + 1.0) * width / 2.0, (1.0 - y) * height / 2.0, z, 1.0)
  {
  }

  /** The corners of normalized device space land on the corners of the
      framebuffer: x = -1 on column 0 and x = 1 on column `width`, y = 1 on
      row 0 and y = -1 on row `height`. */
  lemma ViewportCorners(width: real, height: real, z: real)
    ensures MulVec4(ViewportMatrix(width, height), Vec4(-1.0, 1.0, z, 1.0)) == Vec4(0.0, 0.0, z, 1.0)
    ensures MulVec4(ViewportMatrix(width, height), Vec4(1.0, -1.0, z, 1.0)) == Vec4(width, height, z, 1.0)
  {
    ViewportMapping(width, height, -1.0, 1.0, z);
    ViewportMapping(width, height, 1.0, -1.0, z);
  }
}
