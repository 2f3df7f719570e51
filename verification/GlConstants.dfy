/** The OpenGL constants that more than one module needs. */
module GlConstants {
  const GL_POINTS := 0x0
  const GL_LINES := 0x1
  const GL_LINE_LOOP := 0x2
  const GL_LINE_STRIP := 0x3
  const GL_TRIANGLES := 0x4
  const GL_TRIANGLE_STRIP := 0x5
  const GL_TRIANGLE_FAN := 0x6
  const GL_QUADS := 0x7
  const GL_QUAD_STRIP := 0x8
  const GL_POLYGON := 0x9
  const GL_LINES_ADJACENCY_EXT := 0xA
  const GL_LINE_STRIP_ADJACENCY_EXT := 0xB
  const GL_TRIANGLES_ADJACENCY_EXT := 0xC
  const GL_TRIANGLE_STRIP_ADJACENCY_EXT := 0xD
  const GL_INT := 0x1404
  const GL_UNSIGNED_INT := 0x1405
  const GL_FLOAT := 0x1406
  const GL_QUAD_MESH_SUN := 0x8614
  const GL_TRIANGLE_MESH_SUN := 0x8615
}
