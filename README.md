# A verified model of a software renderer's framebuffer, vertex arithmetic and triangle assembly

This project models the core of a small Rust software renderer built on raylib
(`spaceship_graficas`) in Dafny, and proves properties of that model.

- **Framebuffer** (`framebuffer.dfy`, module `Framebuffer`). The colour image and the
  depth buffer are two arrays of `width * height` cells, row-major, so pixel (x, y) is
  cell `y * width + x`. Depths are finite reals or the `+inf` of an empty cell.
  - `point` writes only when (x, y) is in bounds and the new depth is strictly nearer than
    the stored one. It then stores the depth and an opaque colour.
  - `set_pixel` writes the current colour without a depth test.
  - `clear` resets both buffers and `clear_depth` resets only the depths.
  - `get_pixel_color` returns `None` out of bounds.
  - The class `Framebuffer.Framebuffer` updates the arrays in place. Each of its methods
    promises that its new `State()` is a function of the old state (`PointFrame`,
    `ClearFrame`, ...). The laws of the depth test are proved about those functions: a
    rejected write changes nothing, an accepted one changes one pixel, writes are
    idempotent, writes to different pixels commute, and depth never increases. For any
    sequence of writes, the nearest write wins whatever the arrival order
    (`PointAllKeepsNearest`, `PointAllNearestColorWins`).
- **Vertex-transform arithmetic** (`shaders.dfy`, module `Shaders`), over the reals:
  - the column-major matrix × 4-vector product;
  - the model → view → projection chain;
  - the perspective divide, skipped when `w == 0`;
  - the viewport mapping;
  - normals treated as directions (`w = 0`);
  - which inputs the fragment shader reads.
- **The render driver** (`driver.dfy`, module `Driver`). `transform` rotates a vertex,
  then scales and translates x and y only. `render` transforms the vertex array element
  by element, then walks it in steps of 3. It hands a triangle on only when a whole
  triple remains, so one or two trailing vertices are dropped.
- `values.dfy` (module `Values`) holds the raylib value types (`Color`, `Vector2/3/4`,
  `Matrix`) and Rust's `Option`.

The modelled files contain no barycentric rasterizer. `fragment_shaders` takes only a
fragment and the uniforms, and the only triangle routine (`src/triangle.rs:6-21`) draws a
wireframe through `line.rs`. `src/main.rs:84` calls
`Framebuffer::new` with three arguments, but `src/framebuffer.rs:14` takes two. The
model follows `framebuffer.rs`.

## Model

| member | source | states |
|---|---|---|
| Framebuffer.NearerIsStrictTotalOrder | src/framebuffer.rs:43 | The depth test `depth < stored` is irreflexive, transitive and total on distinct depths, and every finite depth is nearer than `+inf` while `+inf` is nearer than none. |
| Framebuffer.ChannelByte | src/framebuffer.rs:46-48 | A colour component at or below 0 becomes channel 0, and one at or above 1 becomes 255. The result is always an 8-bit value. |
| Framebuffer.ChannelByteMonotone | src/framebuffer.rs:46-48 | A larger component never gives a smaller channel. |
| Framebuffer.PixelColor | src/framebuffer.rs:45-50 | The colour `point` stores is opaque (alpha 255). Each RGB channel is 0 when its component is at or below 0 and 255 when it is at or above 1, so out-of-range colours saturate rather than wrap. |
| Framebuffer.IndexInRange | src/framebuffer.rs:40-41 | For in-bounds (x, y), the index `y * width + x` lies in `[0, width * height)`, so the depth read and write never fall outside the buffer. |
| Framebuffer.IndexInjective | src/framebuffer.rs:40-41 | Two in-bounds pixels share an index exactly when they are the same pixel. |
| Framebuffer.ClearFrame | src/framebuffer.rs:28-31 | After `clear` every colour cell is the background colour and every depth cell is `+inf`. The buffer sizes and both colour settings are kept. |
| Framebuffer.ClearDepthFrame | src/framebuffer.rs:91-93 | After `clear_depth` every depth cell is `+inf` and the colour buffer is exactly as before. |
| Framebuffer.SetPixelFrame | src/framebuffer.rs:33-37 | An in-bounds `set_pixel` puts the current colour at (x, y) and leaves every other pixel's colour and the whole depth buffer as they were. Out of bounds it is a no-op. |
| Framebuffer.PointFrame | src/framebuffer.rs:39-54 | `point` keeps both buffers at `width * height` cells and leaves the colour settings alone. |
| Framebuffer.PointRejected | src/framebuffer.rs:39-43 | An out-of-bounds `point`, or one whose depth is not strictly less than the stored depth, changes nothing at all. |
| Framebuffer.PointAccepted | src/framebuffer.rs:40-52 | An in-bounds `point` whose depth is strictly nearer stores that depth and the opaque converted colour at (x, y). The depth and colour of every other pixel are unchanged. |
| Framebuffer.PointDepthNeverIncreases | src/framebuffer.rs:43-44 | After `point`, no depth cell is farther than it was. |
| Framebuffer.PointIdempotent | src/framebuffer.rs:43-44 | Writing the same `(x, y, depth, color)` twice gives the state of writing it once. |
| Framebuffer.PointNearestWins | src/framebuffer.rs:43-51 | Two writes to one pixel with `d1` strictly nearer than `d2` give the same state in either order. If `d1` passes the test, the pixel ends with `d1` and the `d1` write's colour. |
| Framebuffer.PointsAtDistinctPixelsCommute | src/framebuffer.rs:40-52 | Two `point` writes to different pixels give the same state in either order. |
| Framebuffer.ClearThenPointWrites | src/framebuffer.rs:28-44 | After `clear`, a `point` of any finite depth at an in-bounds pixel stores its depth and colour. |
| Framebuffer.ClearDepthThenPointWrites | src/framebuffer.rs:91-93 | After `clear_depth`, a `point` of any finite depth at an in-bounds pixel succeeds whatever was drawn there, and every other pixel keeps its colour. |
| Framebuffer.PointAll | src/framebuffer.rs:39-54 | Any sequence of `point` writes keeps both buffers at `width * height` cells and the colour settings unchanged. |
| Framebuffer.PointDepthAt | src/framebuffer.rs:40-51 | After one write, a pixel holds the write's depth and colour if the write targets it and is nearer. Otherwise the pixel keeps its old depth and colour. |
| Framebuffer.PointAllKeepsNearest | src/framebuffer.rs:43-44 | After any sequence of writes, a pixel's depth is no farther than its starting depth or any write to it, and it equals one of them. Submission order does not matter. |
| Framebuffer.PointAllFarther | src/framebuffer.rs:43 | Writes to a pixel that all fail the depth test leave its depth and colour unchanged. |
| Framebuffer.PointAllNearestColorWins | src/framebuffer.rs:43-51 | Take a write strictly nearer than a pixel's starting depth and than every other write to that pixel. Whatever the order of all the writes, the pixel ends with that write's depth and colour. |
| Framebuffer.Framebuffer.constructor | src/framebuffer.rs:14-26 | `new` allocates colour and depth buffers of exactly `width * height` cells. Every depth is `+inf`, every colour is white, and the background and current colours are white. |
| Framebuffer.Framebuffer.Clear | src/framebuffer.rs:28-31 | The arrays are reset in place, and the new state is `ClearFrame` of the old. |
| Framebuffer.Framebuffer.ClearDepth | src/framebuffer.rs:91-93 | Only the depth array changes, and the new state is `ClearDepthFrame` of the old. |
| Framebuffer.Framebuffer.SetPixel | src/framebuffer.rs:33-37 | Only the colour array may change, and the new state is `SetPixelFrame` of the old. |
| Framebuffer.Framebuffer.Point | src/framebuffer.rs:39-54 | The indexed read-modify-write of the two arrays, whose new state is `PointFrame` of the old. |
| Framebuffer.Framebuffer.GetPixelColor | src/framebuffer.rs:56-62 | Returns `Some` exactly when (x, y) is in bounds, holding the colour stored for that pixel. Nothing changes. |
| Framebuffer.Framebuffer.SetBackgroundColor | src/framebuffer.rs:64-66 | Only the background colour changes. |
| Framebuffer.Framebuffer.SetCurrentColor | src/framebuffer.rs:68-70 | Only the current colour changes. |
| Shaders.MulMatVecIsColumnMajor | src/shaders.rs:8-15 | Output component `i` of `multiply_matrix_vector4` is `m[i]*x + m[i+4]*y + m[i+8]*z + m[i+12]*w`, which is column-major layout. |
| Shaders.MulIdentity | src/shaders.rs:8-15 | The identity matrix returns every 4-vector unchanged. |
| Shaders.MulMatVecScale | src/shaders.rs:8-15 | The product is linear in the vector: scaling the input by `k` scales the output by `k`. |
| Shaders.MulMatAssociates | src/shaders.rs:8-15 | Applying the product matrix `a * b` to a vector is the same as applying `b` and then `a`. |
| Shaders.ClipPositionIsProduct | src/shaders.rs:18-29 | The clip position is the single matrix `projection * view * model` applied to `(x, y, z, 1)`. This fixes the order model, then view, then projection. |
| Shaders.PerspectiveDivide | src/shaders.rs:31-39 | When `w != 0`, each NDC coordinate times `w` gives back the clip coordinate. When `w == 0`, the NDC is the clip `(x, y, z)` unchanged, so no division by zero happens. |
| Shaders.PerspectiveDivideScaleInvariant | src/shaders.rs:31-39 | For `w != 0`, every non-zero multiple of a clip position divides to the same NDC point. |
| Shaders.ProjectionOfMultipleIsSamePoint | src/shaders.rs:29-39 | When the divide happens, projecting a non-zero multiple of a homogeneous point and dividing gives the same NDC as projecting the point itself. |
| Shaders.ViewportMapOrigin | src/shaders.rs:41-48 | The NDC origin goes to the viewport's translation column `(m12, m13, m14)` (the screen centre for the usual viewport matrix). |
| Shaders.NormalDirectionIgnoresTranslation | src/shaders.rs:60-69 | With `w = 0`, the entries `m12..m15` have no effect. The transformed normal, before normalisation, ignores the model matrix's translation column. |
| Shaders.VertexShader | src/shaders.rs:17-57 | `vertex_shader` copies `position`, `normal`, `tex_coords` and `color` from the input vertex unchanged, and computes only the two `transformed_*` fields. |
| Shaders.VertexShaderPositionDependsOnPosition | src/shaders.rs:17-48 | The screen position depends only on the input position and the four matrices. It does not depend on the other attributes, the time or the normaliser. |
| Shaders.ClipPositionUnderIdentity | src/shaders.rs:18-29 | With identity model, view and projection matrices, a point reaches clip space as `(x, y, z, 1)`. |
| Shaders.VertexShaderOriginToViewportCentre | src/shaders.rs:17-48 | With identity model, view and projection matrices, the object-space origin lands on the viewport's translation column `(m12, m13, m14)`. |
| Shaders.FragmentShaderReadsColorAndPosition | src/shaders.rs:74-87 | `fragment_shaders` reads only the fragment's colour and position. Its output does not depend on the uniforms or the fragment's depth. |
| Shaders.FragmentShaderRedIsAffine | src/shaders.rs:75-86 | The red output is `0.4 * red + 0.0105 * x + 0.14`, whatever `cos` returns. |
| Driver.RotatePreservesLength | src/main.rs:26-42 | When each pair of rotation values is the sine and cosine of one angle, the three rotations keep the vertex's squared distance from the origin. |
| Driver.TransformKeepsRotatedZ | src/main.rs:47-54 | Scale and translation reach only x and y. The returned z is the rotated z, unscaled and untranslated, whatever the scale and translation. |
| Driver.TransformIsAffineInXY | src/main.rs:47-52 | On x and y, `transform` is the rotated coordinate times `scale` plus the translation. |
| Driver.TransformWithoutRotation | src/main.rs:20-54 | With rotation sines 0 and cosines 1, `transform` returns `(x*scale + tx, y*scale + ty, z)`. |
| Driver.AssembleShape | src/main.rs:66-70 | Reading a list three at a time gives `len / 3` triangles, and the `k`-th uses elements `3k`, `3k+1` and `3k+2`. |
| Driver.TransformVertices | src/main.rs:60-64 | The first loop of `render` gives a list as long as the vertex array, whose element `k` is `transform` of input element `k`. |
| Driver.AssembleTriangles | src/main.rs:66-70 | The `step_by(3)` loop with guard `i + 2 < len` emits exactly `len / 3` triangles, the `k`-th from indices `3k`, `3k+1` and `3k+2`, all in bounds. The result equals `Assemble`. |
| Driver.Render | src/main.rs:57-72 | `render` hands on `len / 3` triangles, the `k`-th from the transforms of input vertices `3k`, `3k+1` and `3k+2`. The 1 or 2 trailing vertices are dropped without error. |

## Left out

- `Framebuffer::swap_buffers` (texture upload and drawing through raylib) is presentation I/O.
- Framebuffer.ChannelByte: the colour conversion is computed over the reals. The rounding of the `f32` product before `as u8` is not modelled, and neither is NaN, which `as u8` maps to 0.
- Depths are finite reals or `+inf`. `f32` NaN and `-inf` depths are not modelled.
- Framebuffer.Framebuffer.constructor: requires non-negative sizes whose product fits an `i32`. In Rust, `width * height` overflows otherwise, and a negative product makes `vec!` fail. Two negative sizes, or a zero and a negative size, give a framebuffer on which every call is a no-op, which the model does not represent.
- `width`, `height` and the two buffers are constants in the model. In Rust they are fields, but nothing in the modelled code reassigns them.
- raylib's `Image::gen_image_color`, `clear_background`, `draw_pixel` and `get_color` are modelled as direct access to cell `y * width + x` of a colour array. Their own internal bounds checks never fire behind the framebuffer's checks.
- Shaders.VertexShader: raylib's `Vector3::normalize` (a square root) is a function parameter, so the model does not state what the normalised normal is.
- Uniforms, Vertex and Fragment are defined in files that are not part of this model. Their fields are taken from how the shaders use them. `Uniforms.time` is included and read by nothing.
- `cos` in `fragment_shaders` is a function parameter.
- Driver.Render: the rotation angles enter through their sines and cosines, because `sin_cos` is trigonometry and is left abstract. `Render` returns the triangles it hands to `triangle` and does not draw them: `triangle` and `line.rs` draw a wireframe, and `line.rs` is not part of this model. The framebuffer argument is therefore dropped.
- `main` is not modelled: its event loop, keyboard handling, OBJ loading and frame sleep are window, input and file I/O.
- `src/camera.rs` is not modelled: it is keyboard-driven, uses spherical trigonometry, and builds its view matrix in `matrix.rs`, which is not part of this model.
- `src/light.rs` is a plain record with default-setting constructors and no behaviour.
- `src/triangle.rs` is three calls to `line`, whose source is not part of this model.
- Real arithmetic replaces `f32` throughout. Results are not bit-exact.
