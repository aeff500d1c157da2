/** Values shared by the rasterizer and the Z-buffer: integer device pixels
    and 8-bit RGB colours. */
module ScreenTypes {

  /** A device pixel coordinate; x grows to the right, y grows downwards. */
  datatype Pixel = Pixel(x: int, y: int)

  /** An RGB colour as java.awt.Color holds it (channels in 0..255 when
      built by the shader). */
  datatype Color = Color(red: int, green: int, blue: int)

  /** java.awt.Color.black, the background and the "no light" colour. */
  const Black: Color := Color(0, 0, 0)

  /** java.awt.Color.white, used for points and wireframe edges. */
  const White: Color := Color(255, 255, 255)

  function Abs(i: int): nat {
    if i < 0 then -i else i
  }

  function Min(a: int, b: int): int {
    if a <= b then a else b
  }

  function Max(a: int, b: int): int {
    if a >= b then a else b
  }
}
