/** Positions and orientations, as three.js `Object3D` carries them. */
module Geometry {
  import opened JsValues

  datatype Vec3 = Vec3(x: Number, y: Number, z: Number)

  /** A freshly constructed `Object3D` has zero position and zero Euler rotation. */
  const Origin := Vec3(Int(0), Int(0), Int(0))

  /** The transform of a node: its position and its Euler-angle rotation. */
  datatype Object3D = Object3D(position: Vec3, rotation: Vec3)
}
