# Software sun renderer: verified model

This project models the core of a small CPU software renderer written in
Rust. The renderer loads a Wavefront OBJ sphere, displaces and projects its
vertices in a vertex shader, rasterizes each triangle into fragments, and
colours each fragment with a temperature-based "sun surface" fragment shader.
The model covers these parts:

- **Mesh loading (`ObjLoader`, src/obj.rs).** Lines are split into tokens on
  Unicode white space. Then come the `v` / `vn` / `vt` / `f` dispatch with
  its arity guards, the `a/b/c` face-token split with its 0 defaults, and
  the class `Obj` with its four lists. `Obj.Load` fills the lists one line at
  a time. `Obj.GetVertexArray` expands the faces into a flat vertex list,
  using 1-based indices checked against the list bounds.
- **Record types (`Vertices`, `Fragments`, `Colors`).** `Vertex` and
  `Vertices.New` with its defaults. `Fragment` with its six fields. An 8-bit
  RGB `Color`.
- **Rasterizer (`Raster`, src/triangle.rs).** `BoundingBox` takes the floor
  and ceiling of the vertex extremes and casts them to `i32`. `Barycentric`
  solves the weights from the dot-product (Gram) form with the 1e-8
  degeneracy guard. `Triangle` is the row-major double loop that samples
  pixel centres and builds each accepted fragment.
- **Shaders (`Shaders`, src/shaders.rs).** `VertexShader` displaces the
  vertex along its normal, projects it, divides by w and applies the
  viewport. It uses the inverse-transpose normal matrix and falls back to the
  identity. `FragmentShader` covers the three noise layers, the two pulses,
  the clamped temperature, the seven-band colour ramp with its `as u8` casts,
  the four emission tiers and the rim glow.
- **Frame driver (`Frame`, `Pipeline`, src/main.rs).** `ViewportMatrix`
  models `create_viewport_matrix`. `Pipeline.Render` models `render`: every
  vertex goes through the vertex shader, and each complete triple of
  transformed vertices goes through the rasterizer. Each fragment whose
  `as usize` coordinates fall inside the framebuffer is shaded and then
  plotted. The framebuffer is a class that records, in order, the
  `set_current_color` and `point` calls made on it.

Conventions:
- `f32` is modelled as `real`.
- Rust's `as u8` / `as i32` / `as usize` casts are modelled exactly as
  truncation toward zero that saturates at the type's range (`Casts`).
- Noise, `sin`, `cos`, `powf`, `normalize` and `try_inverse` are fields of a
  `Library` value and stay uninterpreted. The only thing assumed about them
  is that `sin` and `cos` lie in [-1, 1] (`Glm.TrigBounded`), and only
  lemmas that need it assume it.
- Number parsing in the OBJ reader is a parameter of type
  `string -> Option<real>`.

The imperative parts of the source keep their form:
- `Obj.Load` and `Obj.GetVertexArray` are loops over class fields.
  `GetVertexArray` has the nested face/corner loops.
- `Raster.Triangle` has nested `y`/`x` loops appending to `fragments`.
- `Pipeline.Render` has the stepped loop over vertex triples, with the
  per-fragment loop in `Pipeline.ShadeFragments`.

Each of these is proved equal to a specification function:
- `Parsed` for `Obj.Load`;
- `Expand` for `Obj.GetVertexArray`;
- `Rasterize` for `Raster.Triangle`;
- `FrameEvents` for `Pipeline.Render`.

The properties are proved as lemmas about those functions.

## Model

| member | source | states |
|---|---|---|
| Casts.Floor | src/triangle.rs:54-55 | the result is the greatest integer not above the input |
| Casts.Ceil | src/triangle.rs:56-57 | the result is the least integer not below the input |
| Casts.AsI32 | src/triangle.rs:54-57 | the result is within the `i32` range, and equals truncation toward zero for inputs in that range |
| Casts.AsU8 | src/shaders.rs:99-115 | the result is within 0..255: the floor of in-range inputs, 0 for anything below 1, 255 for 255 and above |
| Casts.AsUsize | src/main.rs:120-121 | the result is a natural within the 64-bit `usize` range: the floor of in-range inputs, and 0 for every input below 1, negatives included |
| Casts.AsU8Monotone | src/shaders.rs:99-115 | the saturating `as u8` cast never decreases as its input grows |
| Vertices.New | src/vertex.rs:14-23 | position, normal and texture coordinates are stored as given; the colour is (1, 1, 1); the transformed position and normal are the zero vector |
| ObjLoader.TokensPartitionLine | src/obj.rs:25 | every token of a line is non-empty and white-space free, and the tokens concatenated are exactly the line's non-white-space characters, in order |
| ObjLoader.TokensMaximal | src/obj.rs:25 | tokens are maximal runs: after any leading white space, a white-space-free run is exactly one token, both at the end of a line and before a white-space character and the rest of the line |
| ObjLoader.NormalKeyword | src/obj.rs:25 | `vn` is one token, not `v` followed by `n`, alone and before further tokens |
| ObjLoader.Tokens | src/obj.rs:25 | definition of `split_whitespace`; its properties are TokensPartitionLine, TokensMaximal and BlankLine, which together determine it |
| ObjLoader.BlankLine | src/obj.rs:25-29 | a line has no tokens exactly when it is all white space |
| ObjLoader.SplitJoin | src/obj.rs:55 | the `/` pieces of a token joined with `/` give the token back, and no piece contains `/` |
| ObjLoader.Field | src/obj.rs:57-59 | a missing slash field or one that fails to parse yields 0, and a parsed field yields its number |
| ObjLoader.SlashSlashToken | src/obj.rs:54-61 | `7//3` gives position index 7, texcoord index 0 (its empty field) and normal index 3 |
| ObjLoader.PlainToken | src/obj.rs:54-61 | a token without `/` sets only the position index; the texcoord and normal indices are 0 |
| ObjLoader.ParseFace | src/obj.rs:54-61 | definition of the `parse_face` closure; its properties are Field, SplitJoin, SlashSlashToken and PlainToken |
| ObjLoader.NumberOr0 | src/obj.rs:33-50 | a number that fails to parse becomes 0.0, and a parsed number is kept |
| ObjLoader.LineKinds | src/obj.rs:27-69 | a line is a position (`v`, at least 4 tokens), a normal (`vn`, at least 4), a texcoord (`vt`, at least 3) or a face (`f`, at least 4) exactly under those conditions, and is ignored exactly otherwise |
| ObjLoader.ExtraTokensIgnored | src/obj.rs:32-67 | two lines that agree on their first four tokens parse to the same record, so extra values and the fourth and later vertex references of a polygon are dropped |
| ObjLoader.TexCoordExtraTokensIgnored | src/obj.rs:46-51 | two lines that start with `vt` and agree on their first three tokens are the same texcoord record, so a third value and any later tokens are dropped |
| ObjLoader.ParseLine | src/obj.rs:27-69 | definition of one pass of the dispatch; its properties are LineKinds, ExtraTokensIgnored, TexCoordExtraTokensIgnored and TexCoordFlat |
| ObjLoader.TexCoordFlat | src/obj.rs:46-51 | a `vt` record always has third component 0 |
| ObjLoader.TexCoordsFlat | src/obj.rs:46-51 | every texture coordinate loaded from any file has third component 0 |
| ObjLoader.IgnoredLineChangesNothing | src/obj.rs:27-29 | inserting a blank, short or unknown line anywhere in a file changes none of the four lists |
| ObjLoader.ParsedAppend | src/obj.rs:23-71 | one more line extends exactly the list its record kind names, by that record, and leaves the other three unchanged |
| ObjLoader.Parsed | src/obj.rs:23-71 | definition of the four lists after a prefix of the lines; its properties are ParsedAppend, IgnoredLineChangesNothing and TexCoordsFlat, and Obj.Load is proved equal to it |
| ObjLoader.Obj.Load | src/obj.rs:18-78 | the loop leaves the four lists equal to the line-by-line fold of the records of all lines |
| ObjLoader.LookupWholeNumber | src/obj.rs:88-104 | a whole-number index k in 1..len selects element k-1; 0, a negative index or one above len selects the zero vector; no whole number makes the lookup panic |
| ObjLoader.FractionOnEmptyList | src/obj.rs:88-89 | an index strictly between 0 and 1 on an empty list passes the bounds test but indexes element 0, so it is excluded as a panic |
| ObjLoader.Lookup | src/obj.rs:88-104 | definition of one bounds-checked lookup; its properties are LookupWholeNumber and FractionOnEmptyList |
| ObjLoader.Obj.GetVertexArray | src/obj.rs:81-110 | on a mesh whose lookups cannot panic, the nested loops return exactly the face-by-face, corner-by-corner expansion |
| ObjLoader.ExpandShape | src/obj.rs:84-107 | the expansion has 3 vertices per face; vertex i comes from corner i mod 3 of face i / 3, with position, texcoord and normal looked up by that corner's first, second and third index |
| ObjLoader.Expand | src/obj.rs:84-107 | definition of the vertex list of the first n faces; its properties are ExpandShape and ExpandedVerticesFresh, and Obj.GetVertexArray is proved equal to it |
| ObjLoader.ExpandedVerticesFresh | src/obj.rs:106 | every expanded vertex has colour (1, 1, 1) and zero transformed position and normal |
| ObjLoader.LoadedVertexCount | src/obj.rs:84-107 | loading any file and expanding it gives 3 vertices per `f` record |
| Raster.BoundingBox | src/triangle.rs:53-60 | for vertices within the `i32` range the box is floor(min) to ceil(max) on each axis, and contains all three vertices |
| Raster.Triangle | src/triangle.rs:6-51 | the nested row/column loop returns exactly the row-major list of fragments of the accepted pixels of the bounding box |
| Raster.ScanRow | src/triangle.rs:18-47 | one inner-loop run appends exactly the fragments of row y, from the box's min x to its max x |
| Raster.Sample | src/triangle.rs:19-45 | one pixel yields a fragment exactly when its centre has weights that pass the acceptance test, and the fragment is built from them |
| Raster.PixelFragment | src/triangle.rs:19-45 | definition of one pixel's fragment; its properties are PixelFragmentFacts, CoveredPixelYieldsFragment and MidpointDepth, and Raster.Sample is proved equal to it |
| Raster.Rasterize | src/triangle.rs:17-48 | definition of the fragments of the whole bounding box; its properties are RasterizeSound, RasterizeRowMajor, RasterizeComplete and CollinearRasterizesNothing, and Raster.Triangle is proved equal to it |
| Raster.DenominatorIsSquaredCross | src/triangle.rs:63-73 | the Gram denominator is the square of twice the signed area of the projected triangle, so it is non-negative and zero exactly for collinear vertices |
| Raster.NumeratorsAreCrosses | src/triangle.rs:67-81 | the two weight numerators are the Cramer cross products times twice the signed area |
| Raster.Barycentric | src/triangle.rs:62-84 | definition of `barycentric_coordinates`; its properties are SolvedWeights, WeightsReproducePoint, WeightsUnique, VertexWeights and CollinearGivesNoWeights |
| Raster.SolvedWeights | src/triangle.rs:62-84 | returned weights are Cramer's quotients w2 = cross(p-a, c-a) / cross(b-a, c-a) and w3 = cross(b-a, p-a) / cross(b-a, c-a), with w1 = 1 - w2 - w3 |
| Raster.WeightsReproducePoint | src/triangle.rs:62-84 | returned weights sum to 1 (so the 0.001 tolerance always passes) and w1 a + w2 b + w3 c equals p in x and y |
| Raster.WeightsUnique | src/triangle.rs:62-84 | on a triangle that passes the degeneracy guard, any weights summing to 1 that reproduce p are the ones returned |
| Raster.VertexWeights | src/triangle.rs:62-84 | sampling at vertex a, b or c gives weights (1,0,0), (0,1,0) or (0,0,1) |
| Raster.CollinearGivesNoWeights | src/triangle.rs:73-77 | collinear vertices make the function return no weights, for every point |
| Raster.ConvexBounds | src/triangle.rs:27 | a convex blend of three values lies between their minimum and maximum |
| Raster.PixelFragmentFacts | src/triangle.rs:19-44 | a produced fragment sits at the pixel's integer coordinates, is white, has non-negative intensity, has depth between the vertex depths, and its pixel centre lies in the triangle |
| Raster.CoveredPixelYieldsFragment | src/triangle.rs:19-44 | a pixel whose centre lies in a non-degenerate triangle yields a fragment, whose depth and object-space position are the same affine blend (not renormalized) of the vertices |
| Raster.MidpointDepth | src/triangle.rs:27 | a pixel centred on the midpoint of edge v1 v2 has depth midway between those vertices' depths |
| Raster.RasterizeSound | src/triangle.rs:17-48 | every fragment from a triangle comes from an accepted pixel inside the bounding box, is white, has non-negative intensity and has depth between the vertex depths |
| Raster.RasterizeRowMajor | src/triangle.rs:17-18 | fragments come out row-major: by y ascending, then x ascending |
| Raster.RasterizeComplete | src/triangle.rs:13-48 | for a non-degenerate triangle within the `i32` range, every pixel whose centre lies in the triangle is among the fragments |
| Raster.CentreInBox | src/triangle.rs:13-19 | a pixel whose centre lies in the triangle is inside the bounding box |
| Raster.CollinearRasterizesNothing | src/triangle.rs:17-48 | a triangle with collinear screen vertices yields no fragments |
| Shaders.Displaced | src/shaders.rs:22-30 | the displaced point has w = 1, and a zero normal leaves the position unmoved |
| Shaders.DisplacementBound | src/shaders.rs:16-23 | the displacement is at most 0.08 times the noise in magnitude and has the noise's sign |
| Shaders.Ndc | src/shaders.rs:34-40 | the perspective-divided point has w = 1, and its x, y and z times the clip w give the clip coordinates |
| Shaders.NormalMatrix | src/shaders.rs:44-46 | the inverse of the transposed upper 3x3 of the model matrix when it exists, and the identity otherwise |
| Shaders.VertexShader | src/shaders.rs:8-56 | position, normal, texture coordinates and colour pass through unchanged; the transformed position is the viewport times the divided clip point; the transformed normal is the normal matrix times the normal |
| Shaders.SingularModelKeepsNormal | src/shaders.rs:44-46 | when the normal matrix cannot be inverted, the transformed normal equals the input normal |
| Shaders.ScreenPosition | src/shaders.rs:42 | with the renderer's viewport matrix, the screen position is ((x+1) w/2, (1-y) h/2, z) of the divided point |
| Shaders.Clamp | src/shaders.rs:90 | the clamp lies in [lo, hi], keeps in-range inputs and sends the rest to the nearer end |
| Shaders.PulsesInUnitRange | src/shaders.rs:83-84 | both pulses lie in [0, 1] |
| Shaders.Temperature | src/shaders.rs:86-90 | the temperature lies in [0, 1] |
| Shaders.TempPulsedRange | src/shaders.rs:92 | the pulsed temperature lies between 0.75 times the temperature and the temperature, so in [0, 1] |
| Shaders.BandIntervals | src/shaders.rs:95-116 | each of the seven bands holds exactly its half-open interval; a value on a threshold falls into the band below |
| Shaders.BandParameterInUnitRange | src/shaders.rs:97-115 | inside every band below 0.88 the local parameter t lies in [0, 1] |
| Shaders.TopBandColor | src/shaders.rs:95-96 | above 0.88 the colour is (255, 255, 248) |
| Shaders.RedSaturatedAbove | src/shaders.rs:95-102 | the red channel is 255 for every pulsed temperature above 0.61 |
| Shaders.ContinuousAtThresholds | src/shaders.rs:96-115 | the pre-cast channel formulas of adjacent bands agree at 0.75, 0.61, 0.47, 0.34 and 0.22 |
| Shaders.JumpAtTop | src/shaders.rs:95-99 | at 0.88 the ramp gives (255, 230, 248), and just above it green jumps by 25 |
| Shaders.Ramp | src/shaders.rs:95-116 | definition of the colour ramp; its properties are BandIntervals, BandParameterInUnitRange, TopBandColor, RedSaturatedAbove, ContinuousAtThresholds, JumpAtTop and RampRedMonotone |
| Shaders.RedLevelMonotone | src/shaders.rs:95-116 | the pre-cast red channel never decreases as the temperature rises |
| Shaders.RedLevelBounds | src/shaders.rs:95-116 | the pre-cast red channel of each band lies in that band's red interval |
| Shaders.RampRedMonotone | src/shaders.rs:95-116 | the red channel of the ramp colour never decreases as the temperature rises |
| Shaders.BaseEmission | src/shaders.rs:119-127 | emission is 1.5 above 0.75, 1.15 above 0.55, 0.9 above 0.35 and 0.65 otherwise |
| Shaders.EmissionMonotone | src/shaders.rs:119-127 | emission never decreases as the temperature rises |
| Shaders.PulsatingEmissionRange | src/shaders.rs:129 | the pulsating emission lies between 92% and 100% of the base emission |
| Shaders.EdgeGlow | src/shaders.rs:132-135 | definition of the rim glow, built only from uninterpreted `normalize` and `powf`; it is the part of the shade factor that ShadeLowerBounds sets aside |
| Shaders.FragmentShader | src/shaders.rs:58-138 | definition of `fragment_shader`; its property is ShadeLowerBounds, with the ramp and emission lemmas above |
| Shaders.ShadeLowerBounds | src/shaders.rs:58-137 | whatever the pulse, a fragment is at least as red, and its emission at least 92% as bright, as three quarters of its temperature gives; when three quarters of its temperature exceeds 0.61 it is full red |
| Frame.ViewportMapping | src/main.rs:93-100 | the viewport matrix sends (x, y, z, 1) to ((x+1) w/2, (1-y) h/2, z, 1) |
| Frame.ViewportCorners | src/main.rs:93-100 | NDC (-1, 1) goes to pixel (0, 0) and (1, -1) to (width, height): a Y flip, with z unchanged |
| Frame.ViewportMatrix | src/main.rs:93-100 | definition of `create_viewport_matrix`; its properties are ViewportMapping and ViewportCorners |
| Pipeline.Framebuffer.constructor | src/main.rs:122 | a new framebuffer has the given width and height and no calls recorded |
| Pipeline.Framebuffer.SetColor | src/main.rs:124 | records one `set_current_color` call |
| Pipeline.Framebuffer.Plot | src/main.rs:125 | records one `point` call |
| Pipeline.TransformAll | src/main.rs:104-107 | the transformed list has as many vertices as the input |
| Pipeline.TransformAllPointwise | src/main.rs:104-107 | transformed vertex i is the vertex shader applied to input vertex i |
| Pipeline.TransformAllPrefix | src/main.rs:104-107 | transforming a prefix gives the prefix of the transformed list |
| Pipeline.Target | src/main.rs:120-122 | a fragment has a target pixel exactly when both `as usize` coordinates are below the framebuffer size, and that pixel is inside the framebuffer |
| Pipeline.NegativeCoordinateClampsToZero | src/main.rs:120-122 | a negative x coordinate is cast to column 0 and plotted there rather than dropped |
| Pipeline.Batches | src/main.rs:110-116 | there is one fragment list per triangle, and triangle j is rasterized from transformed vertices 3j, 3j+1 and 3j+2 |
| Pipeline.Render | src/main.rs:102-130 | the frame's calls are those of each complete vertex triple in order, each triangle's fragments in order, each fragment contributing a colour and a point exactly when it lands inside the framebuffer |
| Pipeline.FrameEvents | src/main.rs:102-130 | definition of the calls of one frame; its properties are FrameInBounds, TrailingVerticesIgnored, SingleFragment and FragmentsEventsAppend, and Pipeline.Render is proved equal to it |
| Pipeline.DrawTriangle | src/main.rs:111-128 | one triangle appends exactly the calls of its fragments, in order |
| Pipeline.ShadeFragments | src/main.rs:119-127 | the fragment loop appends the calls of each fragment in turn |
| Pipeline.SingleFragment | src/main.rs:120-126 | a fragment inside the framebuffer is shaded and then plotted at its cast coordinates with its depth; any other fragment is skipped |
| Pipeline.FragmentsEventsAppend | src/main.rs:119-127 | the calls of concatenated fragment lists are the calls of each list, in order |
| Pipeline.FragmentInBounds | src/main.rs:120-125 | the point a fragment may plot lies inside the framebuffer |
| Pipeline.FrameInBounds | src/main.rs:102-130 | no point of a frame lies outside the framebuffer, whatever the fragment coordinates |
| Pipeline.BatchesPrefix | src/main.rs:110-116 | the first n triangles depend only on the first 3n transformed vertices |
| Pipeline.TrailingVerticesIgnored | src/main.rs:110-111 | dropping the trailing 1 or 2 vertices that do not form a triple leaves the frame unchanged, so exactly len / 3 triangles are drawn |

## Left out

- File reading (`File::open`, `BufReader`, the `line?` error path) is I/O. `Obj.Load` takes the file's lines as a sequence of strings.
- Number parsing (`str::parse::<f32>`) is a parameter of type `string -> Option<real>`. Which strings parse, and to what, is not modelled.
- The noise library (`fastnoise_lite`) and `sin`, `cos`, `powf`, `normalize` and `try_inverse` are foreign or transcendental code. They are uninterpreted functions. Only `sin` and `cos` are assumed to lie in [-1, 1], and nothing is assumed about the range of the noise.
- `f32` rounding is not modelled; values are reals. The 1e-8 degeneracy guard and the 0.001 weight-sum tolerance are kept as written, but over reals the weights sum to exactly 1.
- NaN is not modelled. The source's NaN cases are not covered: a `powf` of a negative value, which falls into the bottom band and casts to 0, and NaN coordinates, which cast to 0.
- Shaders.VertexShader: requires a non-zero clip-space w, because the source divides by w without a guard.
- Pipeline.Render: requires a non-zero clip-space w for every input vertex (`Projectable`), including the 1 or 2 trailing vertices that are never drawn, because `render` runs the vertex shader on every vertex before grouping; a zero w there gives infinities or NaN in the source but changes no drawn triangle. Pipeline.TransformAll, Pipeline.FrameEvents, Pipeline.FrameInBounds and Pipeline.TrailingVerticesIgnored carry the same requirement.
- ObjLoader.Obj.GetVertexArray: requires that no lookup indexes outside its list (`MeshSafe`), because the source panics otherwise. The only such case is a fractional index in (0, 1) on an empty list (see `FractionOnEmptyList`). Every whole-number index is safe (`LookupWholeNumber`).
- ObjLoader.LookupWholeNumber: requires the list to be shorter than the `usize` maximum, a length no `Vec` can reach.
- Shaders.FragmentShader: returns the ramp colour and its scale factor (`Shade`) instead of their product, because `Color`'s multiplication is in src/color.rs, which is not part of this model. The same holds for `to_hex`.
- The framebuffer (src/framebuffer.rs) is not part of this model. Its pixel store, depth test, colour packing and `clear` are missing. `Pipeline.Framebuffer` only records the `set_current_color` and `point` calls, in order.
- `main`, `handle_input`, the window, key polling, frame pacing, printing and asset probing in src/main.rs are I/O and are not modelled.
- The camera (src/camera.rs), `create_model_matrix`, `create_view_matrix` and `create_perspective_matrix` are not modelled. They only build matrices from trigonometry, and `Uniforms` takes the matrices as given.
- The pixel step of `triangle` is in `Raster.Sample` and its row in `Raster.ScanRow`. The fragment loop of `render` is in `Pipeline.ShadeFragments`, and one triangle's work in `Pipeline.DrawTriangle`. Each is a separate method proved against its specification; the order of operations is the source's.
- Shaders.ToColor: only its top-band case is stated as a contract. The other bands' channels are covered through `Ramp` by `RedSaturatedAbove`, `JumpAtTop` and `RampRedMonotone`.
