/** The fragment the rasterizer emits per covered pixel (src/fragment.rs). */
module Fragments {
  import opened Glm
  import opened Colors

  /** Pixel coordinate (whole numbers stored as floats), interpolated depth,
      a placeholder colour, interpolated normal, interpolated object-space
      position and diffuse intensity. */
  datatype Fragment = Fragment(
    position: Vec2,
    depth: real,
    color: Color,
    normal: Vec3,
    vertexPosition: Vec3,
    intensity: real)
}
