/** One frame of `render` (src/main.rs): every vertex through the vertex
    shader, each complete triple of transformed vertices through the
    rasterizer, and each fragment that lands inside the framebuffer through
    the fragment shader and into the framebuffer. */
module Pipeline {
  import opened Glm
  import opened Casts
  import opened Vertices
  import opened Fragments
  import opened Frame
  import opened Raster
  import opened Shaders

  /** A call `render` makes on the framebuffer. */
  datatype Event = SetCurrentColor(shade: Shade) | Point(x: nat, y: nat, depth: real)

  /** The framebuffer as `render` uses it: a fixed size, and the calls made on
      it, in order. Its pixel store, depth test and colour packing are not
      part of this model. */
  class Framebuffer {
    const width: nat
    const height: nat
    var events: seq<Event>

    constructor (width: nat, height: nat)
      ensures this.width == width && this.height == height && events == []
    {
      this.width := width;
      this.height := height;
      events := [];
    }

    method SetColor(shade: Shade)
      modifies this
      ensures events == old(events) + [SetCurrentColor(shade)]
    {
      events := events + [SetCurrentColor(shade)];
    }

    method Plot(x: nat, y: nat, depth: real)
      modifies this
      ensures events == old(events) + [Point(x, y, depth)]
    {
      events := events + [Point(x, y, depth)];
    }
  }

  /** The vertex shader is defined on every vertex: no clip-space w is 0. */
  predicate Projectable(vs: seq<Vertex>, u: Uniforms, lib: Library) {
    forall i :: 0 <= i < |vs| ==> Clip(vs[i], u, lib).w != 0.0
  }

  /** The `map(vertex_shader).collect()` of `render`. */
  function TransformAll(vs: seq<Vertex>, u: Uniforms, lib: Library): (r: seq<Vertex>)
    requires Projectable(vs, u, lib)
    ensures |r| == |vs|
  {
    seq(|vs|, i requires 0 <= i < |vs| => VertexShader(vs[i], u, lib))
  }

  /** Every input vertex is shaded exactly once, in place: the list keeps its
      length and order. */
  lemma TransformAllPointwise(vs: seq<Vertex>, u: Uniforms, lib: Library, i: nat)
    requires Projectable(vs, u, lib) && i < |vs|
    ensures |TransformAll(vs, u, lib)| == |vs|
    ensures TransformAll(vs, u, lib)[i] == VertexShader(vs[i], u, lib)
  {
  }

  /** The pixel a fragment goes to: its coordinates cast with `as usize`, or
      nothing when either is outside the framebuffer. */
  function Target(width: nat, height: nat, f: Fragment): (t: Option<(nat, nat)>)
    ensures t.Some? ==> t.value.0 < width && t.value.1 < height
    ensures t.Some? <==> AsUsize(f.position.x) < width && AsUsize(f.position.y) < height
  {
    var x, y := AsUsize(f.position.x), AsUsize(f.position.y);
    if x < width && y < height then Some((x, y)) else None
  }

  /** The calls made for one fragment. */
  function FragmentEvents(width: nat, height: nat, u: Uniforms, lib: Library, f: Fragment): seq<Event> {
    match Target(width, height, f)
    case Some((x, y)) => [SetCurrentColor(FragmentShader(f, u, lib)), Point(x, y, f.depth)]
    case None => []
  }

  /** The calls made for a list of fragments, in their order. */
  function FragmentsEvents(width: nat, height: nat, u: Uniforms, lib: Library, fs: seq<Fragment>): seq<Event> {
    if |fs| == 0 then []
    else FragmentsEvents(width, height, u, lib, fs[..|fs| - 1]) + FragmentEvents(width, height, u, lib, fs[|fs| - 1])
  }

  /** The fragments of the triangle of vertices `start`, `start + 1` and `start + 2`. */
  function TriangleFragments(tv: seq<Vertex>, lib: Library, start: nat): seq<Fragment>
    requires start + 2 < |tv|
  {
    Rasterize(tv[start], tv[start + 1], tv[start + 2], lib)
  }

  /** The fragment lists of the first `n` triangles, in triangle order:
      triangle `j` is made of transformed vertices 3j, 3j + 1 and 3j + 2. */
  function Batches(tv: seq<Vertex>, lib: Library, n: nat): (bs: seq<seq<Fragment>>)
    requires 3 * n <= |tv|
    ensures |bs| == n
  {
    seq(n, j requires 0 <= j < n => TriangleFragments(tv, lib, 3 * j))
  }

  /** The calls made for a list of fragment lists, in their order. */
  function BatchesEvents(width: nat, height: nat, u: Uniforms, lib: Library, bs: seq<seq<Fragment>>): seq<Event> {
    if |bs| == 0 then []
    else BatchesEvents(width, height, u, lib, bs[..|bs| - 1]) + FragmentsEvents(width, height, u, lib, bs[|bs| - 1])
  }

  /** The calls of one frame: one triangle per complete triple of vertices. */
  function FrameEvents(width: nat, height: nat, u: Uniforms, lib: Library, vs: seq<Vertex>): seq<Event>
    requires Projectable(vs, u, lib)
  {
    var tv := TransformAll(vs, u, lib);
    BatchesEvents(width, height, u, lib, Batches(tv, lib, |tv| / 3))
  }

  /** `render`. */
  method Render(fb: Framebuffer, u: Uniforms, vertexArray: seq<Vertex>, lib: Library)
    requires Projectable(vertexArray, u, lib)
    modifies fb
    ensures fb.events == old(fb.events) + FrameEvents(fb.width, fb.height, u, lib, vertexArray)
  {
    var transformedVertices := TransformAll(vertexArray, u, lib);
    var i := 0;
    ghost var j := 0;
    while i < |transformedVertices|
      invariant i == 3 * j
      invariant fb.events == old(fb.events)
        + BatchesEvents(fb.width, fb.height, u, lib, Batches(transformedVertices, lib, Completed(i, |transformedVertices|)))
      decreases |transformedVertices| - i
    {
      ghost var before := fb.events;
      if i + 2 < |transformedVertices| {
        DrawTriangle(fb, u, lib, transformedVertices, i);
      }
      RenderStep(fb.width, fb.height, u, lib, transformedVertices, j, old(fb.events), before, fb.events);
      i := i + 3;
      j := j + 1;
    }
  }

  /** One complete triple of `render`: rasterize it, then shade and plot its
      fragments. */
  method DrawTriangle(fb: Framebuffer, u: Uniforms, lib: Library, tv: seq<Vertex>, i: nat)
    requires i + 2 < |tv|
    modifies fb
    ensures fb.events == old(fb.events) + FragmentsEvents(fb.width, fb.height, u, lib, TriangleFragments(tv, lib, i))
  {
    var fragments := Triangle(tv[i], tv[i + 1], tv[i + 2], lib);
    ShadeFragments(fb, u, lib, fragments);
  }

  /** The `for fragment in fragments` loop of `render`: each fragment whose
      cast coordinates fall inside the framebuffer is shaded and plotted. */
  method ShadeFragments(fb: Framebuffer, u: Uniforms, lib: Library, fragments: seq<Fragment>)
    modifies fb
    ensures fb.events == old(fb.events) + FragmentsEvents(fb.width, fb.height, u, lib, fragments)
  {
    for k := 0 to |fragments|
      invariant fb.events == old(fb.events) + FragmentsEvents(fb.width, fb.height, u, lib, fragments[..k])
    {
      ghost var before := fb.events;
      var fragment := fragments[k];
      var x := AsUsize(fragment.position.x);
      var y := AsUsize(fragment.position.y);
      if x < fb.width && y < fb.height {
        var shadedColor := FragmentShader(fragment, u, lib);
        fb.SetColor(shadedColor);
        fb.Plot(x, y, fragment.depth);
      }
      ShadeStep(fb.width, fb.height, u, lib, fragments, k, old(fb.events), before, fb.events);
    }
    assert fragments[..|fragments|] == fragments;
  }

  /** One fragment of the loop of `render` keeps the calls made equal to
      those of the fragments handled so far. */
  lemma ShadeStep(width: nat, height: nat, u: Uniforms, lib: Library, fs: seq<Fragment>, k: nat,
                  initial: seq<Event>, before: seq<Event>, after: seq<Event>)
    requires k < |fs|
    requires before == initial + FragmentsEvents(width, height, u, lib, fs[..k])
    requires after == before + FragmentEvents(width, height, u, lib, fs[k])
    ensures after == initial + FragmentsEvents(width, height, u, lib, fs[..k + 1])
  {
    assert fs[..k + 1][..k] == fs[..k];
    AppendAssociative(initial, FragmentsEvents(width, height, u, lib, fs[..k]), FragmentEvents(width, height, u, lib, fs[k]));
  }

  /** One stride of the loop of `render` keeps the calls made equal to those
      of the triples completed so far. */
  lemma RenderStep(width: nat, height: nat, u: Uniforms, lib: Library, tv: seq<Vertex>, j: nat,
                   initial: seq<Event>, before: seq<Event>, after: seq<Event>)
    requires 3 * j < |tv|
    requires before == initial + BatchesEvents(width, height, u, lib, Batches(tv, lib, Completed(3 * j, |tv|)))
    requires 3 * j + 2 < |tv| ==> after == before + FragmentsEvents(width, height, u, lib, TriangleFragments(tv, lib, 3 * j))
    requires |tv| <= 3 * j + 2 ==> after == before
    ensures after == initial + BatchesEvents(width, height, u, lib, Batches(tv, lib, Completed(3 * j + 3, |tv|)))
  {
    CompletedStep(j, |tv|);
    if 3 * j + 2 < |tv| {
      var bs := Batches(tv, lib, j);
      var b := TriangleFragments(tv, lib, 3 * j);
      BatchesStep(tv, lib, j);
      assert (bs + [b])[..j] == bs;
      assert BatchesEvents(width, height, u, lib, bs + [b])
        == BatchesEvents(width, height, u, lib, bs) + FragmentsEvents(width, height, u, lib, b);
      AppendAssociative(initial, BatchesEvents(width, height, u, lib, bs), FragmentsEvents(width, height, u, lib, b));
    }
  }

  /** One more triangle appends its fragment list. */
  lemma BatchesStep(tv: seq<Vertex>, lib: Library, n: nat)
    requires 3 * n + 3 <= |tv|
    ensures Batches(tv, lib, n + 1) == Batches(tv, lib, n) + [TriangleFragments(tv, lib, 3 * n)]
  {
  }

  lemma AppendAssociative<T>(a: seq<T>, b: seq<T>, c: seq<T>)
    ensures a + b + c == a + (b + c)
  {
  }

  /** How many complete triples lie among the first `i` of `len` vertices. */
  function Completed(i: nat, len: nat): (n: nat)
    ensures 3 * n <= len
    ensures i <= len ==> 3 * n <= i
  {
    (if i <= len then i else len) / 3
  }

  /** Advancing by one stride completes one more triple exactly when a whole
      triple starts at `i`. */
  lemma CompletedStep(j: nat, len: nat)
    requires 3 * j < len
    ensures 3 * j + 2 < len ==> Completed(3 * j, len) == j && Completed(3 * j + 3, len) == j + 1
    ensures len <= 3 * j + 2 ==> Completed(3 * j + 3, len) == Completed(3 * j, len)
  {
  }

  // ---------------------------------------------------------------------------
  // Properties of a frame

  /** Every plotted pixel lies inside the framebuffer. */
  predicate InBounds(width: nat, height: nat, es: seq<Event>) {
    forall k :: 0 <= k < |es| && es[k].Point? ==> es[k].x < width && es[k].y < height
  }

  lemma InBoundsAppend(width: nat, height: nat, a: seq<Event>, b: seq<Event>)
    requires InBounds(width, height, a) && InBounds(width, height, b)
    ensures InBounds(width, height, a + b)
  {
    forall k | 0 <= k < |a + b| && (a + b)[k].Point? ensures (a + b)[k].x < width && (a + b)[k].y < height {
      if k >= |a| {
        assert (a + b)[k] == b[k - |a|];
      }
    }
  }

  /** The one point a fragment may plot lies inside the framebuffer. */
  lemma FragmentInBounds(width: nat, height: nat, u: Uniforms, lib: Library, f: Fragment)
    ensures InBounds(width, height, FragmentEvents(width, height, u, lib, f))
  {
    var es := FragmentEvents(width, height, u, lib, f);
    if Target(width, height, f).Some? {
      var t := Target(width, height, f).value;
      assert es[1] == Point(t.0, t.1, f.depth);
    }
  }

  lemma {:induction false} FragmentsInBounds(width: nat, height: nat, u: Uniforms, lib: Library, fs: seq<Fragment>)
    ensures InBounds(width, height, FragmentsEvents(width, height, u, lib, fs))
    decreases |fs|
  {
    if |fs| > 0 {
      FragmentsInBounds(width, height, u, lib, fs[..|fs| - 1]);
      FragmentInBounds(width, height, u, lib, fs[|fs| - 1]);
      InBoundsAppend(width, height, FragmentsEvents(width, height, u, lib, fs[..|fs| - 1]), FragmentEvents(width, height, u, lib, fs[|fs| - 1]));
    }
  }

  lemma {:induction false} BatchesInBounds(width: nat, height: nat, u: Uniforms, lib: Library, bs: seq<seq<Fragment>>)
    ensures InBounds(width, height, BatchesEvents(width, height, u, lib, bs))
    decreases |bs|
  {
    if |bs| > 0 {
      BatchesInBounds(width, height, u, lib, bs[..|bs| - 1]);
      FragmentsInBounds(width, height, u, lib, bs[|bs| - 1]);
      InBoundsAppend(width, height, BatchesEvents(width, height, u, lib, bs[..|bs| - 1]),
        FragmentsEvents(width, height, u, lib, bs[|bs| - 1]));
    }
  }

  /** No frame plots outside the framebuffer, whatever the fragments' coordinates. */
  lemma FrameInBounds(width: nat, height: nat, u: Uniforms, lib: Library, vs: seq<Vertex>)
    requires Projectable(vs, u, lib)
    ensures InBounds(width, height, FrameEvents(width, height, u, lib, vs))
  {
    var tv := TransformAll(vs, u, lib);
    BatchesInBounds(width, height, u, lib, Batches(tv, lib, |tv| / 3));
  }

  /** A negative coordinate is not discarded: the cast takes it to 0, so the
      fragment is plotted in column (or row) 0 when the other coordinate fits. */
  lemma NegativeCoordinateClampsToZero(width: nat, height: nat, f: Fragment)
    requires f.position.x < 0.0 && 0 < width && AsUsize(f.position.y) < height
    ensures Target(width, height, f) == Some((0, AsUsize(f.position.y)))
  {
  }

  /** The fragments of a list are handled one after another: the calls for a
      concatenation are the calls for each part, in order. */
  lemma {:induction false} FragmentsEventsAppend(width: nat, height: nat, u: Uniforms, lib: Library, fs: seq<Fragment>, gs: seq<Fragment>)
    ensures FragmentsEvents(width, height, u, lib, fs + gs)
      == FragmentsEvents(width, height, u, lib, fs) + FragmentsEvents(width, height, u, lib, gs)
    decreases |gs|
  {
    if |gs| == 0 {
      assert fs + gs == fs;
    } else {
      var init := gs[..|gs| - 1];
      FragmentsEventsAppend(width, height, u, lib, fs, init);
      assert (fs + gs)[..|fs + gs| - 1] == fs + init;
      assert (fs + gs)[|fs + gs| - 1] == gs[|gs| - 1];
      AppendAssociative(FragmentsEvents(width, height, u, lib, fs), FragmentsEvents(width, height, u, lib, init),
        FragmentEvents(width, height, u, lib, gs[|gs| - 1]));
    }
  }

  /** A fragment is shaded and plotted exactly when its cast coordinates fit:
      a fitting fragment contributes its colour and then its point, any other
      fragment nothing. */
  lemma SingleFragment(width: nat, height: nat, u: Uniforms, lib: Library, f: Fragment)
    ensures var x, y := AsUsize(f.position.x), AsUsize(f.position.y);
      && (x < width && y < height ==>
            FragmentsEvents(width, height, u, lib, [f]) == [SetCurrentColor(FragmentShader(f, u, lib)), Point(x, y, f.depth)])
      && (!(x < width && y < height) ==> FragmentsEvents(width, height, u, lib, [f]) == [])
  {
    assert [f][..0] == [];
  }

  /** The triangles only look at the vertices they use. */
  lemma BatchesPrefix(tv: seq<Vertex>, lib: Library, m: nat, n: nat)
    requires 3 * n <= m <= |tv|
    ensures Batches(tv[..m], lib, n) == Batches(tv, lib, n)
  {
    forall j | 0 <= j < n ensures Batches(tv[..m], lib, n)[j] == Batches(tv, lib, n)[j] {
      TriangleFragmentsPrefix(tv, lib, m, 3 * j);
    }
  }

  lemma TriangleFragmentsPrefix(tv: seq<Vertex>, lib: Library, m: nat, s: nat)
    requires s + 2 < m <= |tv|
    ensures TriangleFragments(tv[..m], lib, s) == TriangleFragments(tv, lib, s)
  {
    assert tv[..m][s] == tv[s] && tv[..m][s + 1] == tv[s + 1] && tv[..m][s + 2] == tv[s + 2];
  }

  lemma TransformAllPrefix(vs: seq<Vertex>, u: Uniforms, lib: Library, m: nat)
    requires Projectable(vs, u, lib) && m <= |vs|
    ensures Projectable(vs[..m], u, lib)
    ensures TransformAll(vs[..m], u, lib) == TransformAll(vs, u, lib)[..m]
  {
    assert forall i :: 0 <= i < m ==> vs[..m][i] == vs[i];
  }

  /** A trailing group of one or two vertices is never drawn: a frame makes
      the same calls as one with those vertices removed. */
  lemma TrailingVerticesIgnored(width: nat, height: nat, u: Uniforms, lib: Library, vs: seq<Vertex>)
    requires Projectable(vs, u, lib)
    ensures Projectable(vs[..3 * (|vs| / 3)], u, lib)
    ensures FrameEvents(width, height, u, lib, vs[..3 * (|vs| / 3)]) == FrameEvents(width, height, u, lib, vs)
  {
    var n := |vs| / 3;
    var m := 3 * n;
    TransformAllPrefix(vs, u, lib, m);
    var tv := TransformAll(vs, u, lib);
    var tv2 := TransformAll(vs[..m], u, lib);
    BatchesPrefix(tv, lib, m, n);
    assert |tv2| / 3 == n && |tv| / 3 == n;
    assert Batches(tv2, lib, n) == Batches(tv, lib, n);
  }
}
