/** Value types the renderer takes from raylib and from Rust's standard library. */
module Values {

  /** An unsigned 8-bit channel (Rust's `u8`). */
  type Byte = x: int | 0 <= x < 256

  /** raylib's `Color`: four 8-bit channels in RGBA order. */
  datatype Color = Color(r: Byte, g: Byte, b: Byte, a: Byte)

  /** raylib's `Color::WHITE`. */
  const White: Color := Color(255, 255, 255, 255)

  /** raylib's `Vector2`, `Vector3` and `Vector4`, over the reals instead of `f32`. */
  datatype Vec2 = Vec2(x: real, y: real)
  datatype Vec3 = Vec3(x: real, y: real, z: real)
  datatype Vec4 = Vec4(x: real, y: real, z: real, w: real)

  /** raylib's `Matrix`: sixteen entries where `m[row + 4 * col]` is the entry at (row, col). */
  datatype Mat4 = Mat4(
    m0: real, m1: real, m2: real, m3: real,
    m4: real, m5: real, m6: real, m7: real,
    m8: real, m9: real, m10: real, m11: real,
    m12: real, m13: real, m14: real, m15: real)

  /** Rust's `Option`. */
  datatype Option<T> = None | Some(value: T)
}
