/** The mesh vertex (src/vertex.rs). */
module Vertices {
  import opened Glm

  /** Object-space position, normal and texture coordinates, a base colour, and
      the two fields only the vertex shader fills in: the screen-space position
      and the transformed normal. */
  datatype Vertex = Vertex(
    position: Vec3,
    normal: Vec3,
    texCoords: Vec3,
    color: Vec3,
    transformedPosition: Vec3,
    transformedNormal: Vec3)

  /** The derived fields still hold their initial zero value. */
  predicate Untransformed(v: Vertex) {
    v.transformedPosition == Zero3 && v.transformedNormal == Zero3
  }

  /** `Vertex::new`: keeps the three given attributes, a white base colour, and
      no transform yet. */
  function New(position: Vec3, normal: Vec3, texCoords: Vec3): (v: Vertex)
    ensures v.position == position && v.normal == normal && v.texCoords == texCoords
    ensures v.color == Vec3(1.0, 1.0, 1.0)
    ensures Untransformed(v)
  {
    Vertex(position, normal, texCoords, Vec3(1.0, 1.0, 1.0), Zero3, Zero3)
  }
}
