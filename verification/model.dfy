/**
 * The mesh side of the engine (`LgeModel` and its `Builder`): how a parsed
 * Wavefront OBJ file becomes a deduplicated vertex list plus an index list,
 * how those lists are uploaded into the model's buffers, and how a model
 * chooses between an indexed and a plain draw.
 *
 * Floating-point attributes are modelled as `real`; the OBJ parser is not
 * modelled, its output (`attrib` and the shapes' index triples) is an input.
 */
module Model {
  import opened Wrappers

  /** 2^32: `vertexCount` and `indexCount` are `uint32_t`. */
  const U32: nat := 0x1_0000_0000

  /** `sizeof(float)`. */
  const FloatSize: nat := 4

  datatype Vec3 = Vec3(x: real, y: real, z: real)
  datatype Vec2 = Vec2(u: real, v: real)

  const Zero3: Vec3 := Vec3(0.0, 0.0, 0.0)
  const White: Vec3 := Vec3(1.0, 1.0, 1.0)

  /** A vertex compares equal to another exactly when all four attributes do,
      which is what the deduplicating map keys on. */
  datatype Vertex = Vertex(position: Vec3, color: Vec3, normal: Vec3, uv: Vec2)

  /** `Vertex vertex{}`: every attribute zero. */
  const DefaultVertex: Vertex := Vertex(Zero3, Zero3, Zero3, Vec2(0.0, 0.0))

  /** `offsetof` each field of `Vertex`: three `vec3` and one `vec2` of
      floats, tightly packed in declaration order. The declaration of `Vertex`
      (lge_model.hpp) is not part of this model; the field order position,
      colour, normal, uv is the one the vertex hash combines them in
      (src/lge_model.cpp:19), and tight packing is assumed. */
  const PositionOffset: nat := 0
  const ColorOffset: nat := PositionOffset + 3 * FloatSize
  const NormalOffset: nat := ColorOffset + 3 * FloatSize
  const UvOffset: nat := NormalOffset + 3 * FloatSize

  /** `sizeof(Vertex)`. */
  const VertexSize: nat := UvOffset + 2 * FloatSize

  /** `sizeof(uint32_t)`, the element of the index buffer. */
  const IndexSize: nat := 4

  // ---------------------------------------------------------------------
  // The loader's output
  // ---------------------------------------------------------------------

  /** Flat attribute arrays: three reals per position, colour and normal,
      two per texture coordinate. */
  datatype Attrib = Attrib(vertices: seq<real>, colors: seq<real>, normals: seq<real>, texcoords: seq<real>)

  /** One corner of a face; a negative component means "absent". */
  datatype Index = Index(vertexIndex: int, normalIndex: int, texcoordIndex: int)

  /** A shape, reduced to its mesh's index list. */
  datatype Shape = Shape(indices: seq<Index>)

  /** What the OBJ loader hands back: the parsed data, or its warning and error text. */
  datatype LoadResult = Loaded(attrib: Attrib, shapes: seq<Shape>) | LoadFailed(warn: string, err: string)

  /** The reads that `loadModel` does without a bounds check stay inside the
      arrays. The source does not check them, so an out-of-range index is
      undefined behaviour there; the model requires in-range reads instead. */
  predicate IndexInRange(a: Attrib, ix: Index)
  {
    && (ix.vertexIndex >= 0 ==> 3 * ix.vertexIndex + 2 < |a.vertices|)
    && (ix.normalIndex >= 0 ==> 3 * ix.normalIndex + 2 < |a.normals|)
    && (ix.texcoordIndex >= 0 ==> 2 * ix.texcoordIndex + 1 < |a.texcoords|)
  }

  predicate ShapeWellFormed(a: Attrib, ixs: seq<Index>)
  {
    forall k :: 0 <= k < |ixs| ==> IndexInRange(a, ixs[k])
  }

  predicate WellFormed(a: Attrib, shapes: seq<Shape>)
  {
    forall s :: 0 <= s < |shapes| ==> ShapeWellFormed(a, shapes[s].indices)
  }

  /** The `i`-th triple of a flat attribute array. */
  function Triple(xs: seq<real>, i: nat): Vec3
    requires 3 * i + 2 < |xs|
  {
    Vec3(xs[3 * i], xs[3 * i + 1], xs[3 * i + 2])
  }

  /** The colour array holds a whole RGB triple for position `i`. */
  predicate HasColor(a: Attrib, i: nat)
  {
    3 * i + 3 <= |a.colors|
  }

  // ---------------------------------------------------------------------
  // Per-corner attribute extraction
  // ---------------------------------------------------------------------

  /** The vertex `loadModel` builds for one index triple. The colour guard of
      the source tests only the last element of the triple; the contract shows
      that this is exactly "a whole colour triple exists for this position". */
  function CornerVertex(a: Attrib, ix: Index): (v: Vertex)
    requires IndexInRange(a, ix)
    ensures ix.vertexIndex >= 0 ==> v.position == Triple(a.vertices, ix.vertexIndex)
    ensures ix.vertexIndex >= 0 && HasColor(a, ix.vertexIndex) ==> v.color == Triple(a.colors, ix.vertexIndex)
    ensures ix.vertexIndex >= 0 && !HasColor(a, ix.vertexIndex) ==> v.color == White
    ensures ix.vertexIndex < 0 ==> v.position == DefaultVertex.position && v.color == DefaultVertex.color
    ensures ix.normalIndex >= 0 ==> v.normal == Triple(a.normals, ix.normalIndex)
    ensures ix.normalIndex < 0 ==> v.normal == DefaultVertex.normal
    ensures ix.texcoordIndex >= 0 ==>
              v.uv == Vec2(a.texcoords[2 * ix.texcoordIndex], 1.0 - a.texcoords[2 * ix.texcoordIndex + 1])
    ensures ix.texcoordIndex < 0 ==> v.uv == DefaultVertex.uv
  {
    var withPosition :=
      if ix.vertexIndex >= 0 then
        var vi := ix.vertexIndex;
        var colorIndex := 3 * vi + 2;
        DefaultVertex.(
          position := Vec3(a.vertices[3 * vi + 0], a.vertices[3 * vi + 1], a.vertices[3 * vi + 2]),
          color := if colorIndex < |a.colors|
                   then Vec3(a.colors[colorIndex - 2], a.colors[colorIndex - 1], a.colors[colorIndex - 0])
                   else White)
      else DefaultVertex;
    var withNormal :=
      if ix.normalIndex >= 0 then
        var ni := ix.normalIndex;
        withPosition.(normal := Vec3(a.normals[3 * ni + 0], a.normals[3 * ni + 1], a.normals[3 * ni + 2]))
      else withPosition;
    if ix.texcoordIndex >= 0 then
      var ti := ix.texcoordIndex;
      withNormal.(uv := Vec2(a.texcoords[2 * ti + 0], 1.0 - a.texcoords[2 * ti + 1]))
    else withNormal
  }

  /** The corner vertices of one shape, in index order. */
  function ShapeCorners(a: Attrib, ixs: seq<Index>): (cs: seq<Vertex>)
    requires ShapeWellFormed(a, ixs)
    ensures |cs| == |ixs|
    ensures forall k :: 0 <= k < |ixs| ==> cs[k] == CornerVertex(a, ixs[k])
  {
    if ixs == [] then [] else ShapeCorners(a, ixs[..|ixs| - 1]) + [CornerVertex(a, ixs[|ixs| - 1])]
  }

  /** The number of index entries over all shapes. */
  function IndexCount(shapes: seq<Shape>): nat
  {
    if shapes == [] then 0 else IndexCount(shapes[..|shapes| - 1]) + |shapes[|shapes| - 1].indices|
  }

  /** The corner vertices of all shapes: shapes in order, each shape's indices in order. */
  function Corners(a: Attrib, shapes: seq<Shape>): (cs: seq<Vertex>)
    requires WellFormed(a, shapes)
    ensures |cs| == IndexCount(shapes)
  {
    if shapes == [] then []
    else Corners(a, shapes[..|shapes| - 1]) + ShapeCorners(a, shapes[|shapes| - 1].indices)
  }

  /** The `k`-th index of shape `s` is the corner at position
      `IndexCount(shapes[..s]) + k` of the flattened list. */
  lemma {:induction false} CornersInOrder(a: Attrib, shapes: seq<Shape>, s: nat, k: nat)
    requires WellFormed(a, shapes) && s < |shapes| && k < |shapes[s].indices|
    ensures IndexCount(shapes[..s]) + k < |Corners(a, shapes)|
    ensures Corners(a, shapes)[IndexCount(shapes[..s]) + k] == CornerVertex(a, shapes[s].indices[k])
  {
    var n := |shapes| - 1;
    var init := shapes[..n];
    assert WellFormed(a, init) by {
      forall j | 0 <= j < |init| ensures ShapeWellFormed(a, init[j].indices) {
        assert init[j] == shapes[j];
      }
    }
    var last := ShapeCorners(a, shapes[n].indices);
    assert Corners(a, shapes) == Corners(a, init) + last;
    if s == n {
      assert init == shapes[..s];
    } else {
      assert init[..s] == shapes[..s];
      assert init[s] == shapes[s];
      CornersInOrder(a, init, s, k);
    }
  }

  // ---------------------------------------------------------------------
  // Deduplication
  // ---------------------------------------------------------------------

  /** What `loadModel` keeps while it walks the corners: the vertex list, the
      index list and the `uniqueVertices` map from a vertex to its first index. */
  datatype Mesh = Mesh(vertices: seq<Vertex>, indices: seq<nat>, unique: map<Vertex, nat>)

  const EmptyMesh: Mesh := Mesh([], [], map[])

  /** One pass of the inner loop of `loadModel` for the corner vertex `v`: a
      vertex not yet in the map is appended and mapped to its position; then
      the mapped position is appended to the index list. */
  function AddCorner(m: Mesh, v: Vertex): (r: Mesh)
    // one more index, at most one more vertex, and the vertex is now mapped
    ensures |r.indices| == |m.indices| + 1
    ensures |m.vertices| <= |r.vertices| <= |m.vertices| + 1
    ensures v in r.unique
  {
    var m' := if v !in m.unique then Mesh(m.vertices + [v], m.indices, m.unique[v := |m.vertices|]) else m;
    m'.(indices := m'.indices + [m'.unique[v]])
  }

  /** The mesh `loadModel` produces from the corner list `cs`, starting from empty lists. */
  function Dedup(cs: seq<Vertex>): (r: Mesh)
    ensures |r.indices| == |cs| && |r.vertices| <= |cs|
  {
    if cs == [] then EmptyMesh else AddCorner(Dedup(cs[..|cs| - 1]), cs[|cs| - 1])
  }

  /** The map and the vertex list agree: each listed vertex maps to its own
      position, and the map holds nothing else. */
  ghost predicate Consistent(m: Mesh)
  {
    && (forall v :: v in m.unique ==> m.unique[v] < |m.vertices| && m.vertices[m.unique[v]] == v)
    && (forall i :: 0 <= i < |m.vertices| ==> m.vertices[i] in m.unique && m.unique[m.vertices[i]] == i)
  }

  ghost predicate Distinct(vs: seq<Vertex>)
  {
    forall i, j :: 0 <= i < j < |vs| ==> vs[i] != vs[j]
  }

  /** The position of the first occurrence of `v` in `cs`. */
  function FirstIndex(cs: seq<Vertex>, v: Vertex): (k: nat)
    requires v in cs
    ensures k < |cs| && cs[k] == v && v !in cs[..k]
  {
    if cs[0] == v then 0
    else
      var k := 1 + FirstIndex(cs[1..], v);
      assert cs[..k] == [cs[0]] + cs[1..][..k - 1];
      k
  }

  /** The vertices of `vs` all occur in `cs` and are listed in the order of
      their first occurrence there. */
  ghost predicate InFirstOccurrenceOrder(cs: seq<Vertex>, vs: seq<Vertex>)
  {
    && (forall i :: 0 <= i < |vs| ==> vs[i] in cs)
    && (forall i, j :: 0 <= i < j < |vs| ==> FirstIndex(cs, vs[i]) < FirstIndex(cs, vs[j]))
  }

  /** What a deduplicated mesh of the corner list `cs` is, independently of how
      it is computed: one index per corner, each index pointing at a vertex equal
      to its corner, no vertex listed twice, vertices in first-occurrence order. */
  ghost predicate Deduplicates(cs: seq<Vertex>, vs: seq<Vertex>, ixs: seq<nat>)
  {
    && |ixs| == |cs|
    && (forall k :: 0 <= k < |cs| ==> ixs[k] < |vs| && vs[ixs[k]] == cs[k])
    && Distinct(vs)
    && InFirstOccurrenceOrder(cs, vs)
  }

  /** Any witness of `k` being a first occurrence is the one `FirstIndex` finds. */
  lemma FirstIndexIs(cs: seq<Vertex>, v: Vertex, k: nat)
    requires k < |cs| && cs[k] == v && v !in cs[..k]
    ensures FirstIndex(cs, v) == k
  {
    var f := FirstIndex(cs, v);
  }

  /** Appending a corner leaves the first occurrences of earlier vertices alone. */
  lemma FirstIndexAppend(cs: seq<Vertex>, w: Vertex, v: Vertex)
    requires v in cs
    ensures v in cs + [w] && FirstIndex(cs + [w], v) == FirstIndex(cs, v)
  {
    var f := FirstIndex(cs, v);
    assert (cs + [w])[..f] == cs[..f];
    FirstIndexIs(cs + [w], v, f);
  }

  /** A new vertex first occurs at the position it is appended at. */
  lemma FirstIndexOfNew(cs: seq<Vertex>, w: Vertex)
    requires w !in cs
    ensures FirstIndex(cs + [w], w) == |cs|
  {
    assert (cs + [w])[..|cs|] == cs;
    FirstIndexIs(cs + [w], w, |cs|);
  }

  /** What one pass of the inner loop does to a consistent mesh. */
  lemma AddCornerStep(m: Mesh, v: Vertex)
    requires Consistent(m)
    ensures var m' := AddCorner(m, v);
      && Consistent(m')
      && m'.unique.Keys == m.unique.Keys + {v}
      && (v in m.unique ==> m'.vertices == m.vertices)
      && (v !in m.unique ==> m'.vertices == m.vertices + [v])
      && m'.indices == m.indices + [m'.unique[v]]
      && m'.unique[v] < |m'.vertices| && m'.vertices[m'.unique[v]] == v
  {
    if v !in m.unique {
      var m' := AddCorner(m, v);
      assert m'.vertices == m.vertices + [v];
      forall u | u in m'.unique ensures m'.unique[u] < |m'.vertices| && m'.vertices[m'.unique[u]] == u {
        if u != v {
          assert m'.vertices[m.unique[u]] == m.vertices[m.unique[u]];
        }
      }
    }
  }

  /** A vertex already in the map keeps the index it was first given. */
  lemma AddCornerKeepsIndices(m: Mesh, v: Vertex)
    ensures forall u :: u in m.unique ==> AddCorner(m, v).unique[u] == m.unique[u]
  {
  }

  /** `Dedup` of a non-empty corner list is one more pass over its last corner. */
  lemma DedupLast(cs: seq<Vertex>, v: Vertex)
    ensures Dedup(cs + [v]) == AddCorner(Dedup(cs), v)
  {
    assert (cs + [v])[..|cs|] == cs;
  }

  /** The loop's bookkeeping: processing `cs` corner by corner keeps the map
      consistent with the vertex list, and the map's keys are exactly the
      corners seen so far. */
  lemma {:induction false} DedupConsistent(cs: seq<Vertex>)
    ensures Consistent(Dedup(cs))
    ensures Dedup(cs).unique.Keys == set v | v in cs
  {
    if cs != [] {
      var init, v := cs[..|cs| - 1], cs[|cs| - 1];
      assert cs == init + [v];
      DedupConsistent(init);
      DedupLast(init, v);
      AddCornerStep(Dedup(init), v);
      assert (set u | u in cs) == (set u | u in init) + {v};
    }
  }

  /** A consistent mesh lists no vertex twice. */
  lemma ConsistentDistinct(m: Mesh)
    requires Consistent(m)
    ensures Distinct(m.vertices)
  {
    forall i, j | 0 <= i < j < |m.vertices| ensures m.vertices[i] != m.vertices[j] {
      assert m.unique[m.vertices[i]] == i && m.unique[m.vertices[j]] == j;
    }
  }

  /** One index per corner, each selecting a vertex equal to its corner; the
      vertex list is never longer than the corner list. */
  lemma {:induction false} DedupIndices(cs: seq<Vertex>)
    ensures forall k :: 0 <= k < |cs| ==>
              Dedup(cs).indices[k] < |Dedup(cs).vertices| && Dedup(cs).vertices[Dedup(cs).indices[k]] == cs[k]
  {
    if cs != [] {
      var init, v := cs[..|cs| - 1], cs[|cs| - 1];
      assert cs == init + [v];
      DedupIndices(init);
      DedupConsistent(init);
      DedupLast(init, v);
      AddCornerSelects(Dedup(init), init, v);
    }
  }

  /** One pass keeps every index selecting the vertex of its corner. */
  lemma AddCornerSelects(m: Mesh, cs: seq<Vertex>, v: Vertex)
    requires Consistent(m) && |m.indices| == |cs|
    requires forall k :: 0 <= k < |cs| ==> m.indices[k] < |m.vertices| && m.vertices[m.indices[k]] == cs[k]
    ensures var m' := AddCorner(m, v);
      forall k :: 0 <= k < |cs + [v]| ==> m'.indices[k] < |m'.vertices| && m'.vertices[m'.indices[k]] == (cs + [v])[k]
  {
    var m' := AddCorner(m, v);
    AddCornerStep(m, v);
    forall k | 0 <= k < |cs + [v]| ensures m'.indices[k] < |m'.vertices| && m'.vertices[m'.indices[k]] == (cs + [v])[k] {
      if k < |cs| {
        var j := m.indices[k];
        assert m'.indices[k] == j && j < |m.vertices| && m.vertices[j] == cs[k];
        assert m'.vertices[j] == m.vertices[j];
      }
    }
  }

  /** Appending a corner keeps a first-occurrence ordered list ordered. */
  lemma OrderAppendOld(cs: seq<Vertex>, v: Vertex, vs: seq<Vertex>)
    requires InFirstOccurrenceOrder(cs, vs)
    ensures InFirstOccurrenceOrder(cs + [v], vs)
  {
    forall i | 0 <= i < |vs| ensures vs[i] in cs + [v] && FirstIndex(cs + [v], vs[i]) == FirstIndex(cs, vs[i]) {
      FirstIndexAppend(cs, v, vs[i]);
    }
  }

  /** A corner seen for the first time goes to the end of the order. */
  lemma OrderAppendNew(cs: seq<Vertex>, v: Vertex, vs: seq<Vertex>)
    requires InFirstOccurrenceOrder(cs, vs) && v !in cs
    ensures InFirstOccurrenceOrder(cs + [v], vs + [v])
  {
    OrderAppendOld(cs, v, vs);
    FirstIndexOfNew(cs, v);
    var vs' := vs + [v];
    forall i | 0 <= i < |vs| ensures vs'[i] == vs[i] && FirstIndex(cs + [v], vs[i]) < |cs| {
      FirstIndexAppend(cs, v, vs[i]);
    }
  }

  /** The vertices are listed in the order their first occurrences appear in `cs`. */
  lemma {:induction false} DedupOrder(cs: seq<Vertex>)
    ensures InFirstOccurrenceOrder(cs, Dedup(cs).vertices)
  {
    if cs != [] {
      var init, v := cs[..|cs| - 1], cs[|cs| - 1];
      assert cs == init + [v];
      DedupOrder(init);
      DedupConsistent(init);
      DedupLast(init, v);
      var m := Dedup(init);
      AddCornerStep(m, v);
      if v in m.unique {
        OrderAppendOld(init, v, m.vertices);
      } else {
        OrderAppendNew(init, v, m.vertices);
      }
    }
  }

  /** The mesh built from `cs` is a deduplication of `cs` in the sense of
      `Deduplicates`. */
  lemma DedupDeduplicates(cs: seq<Vertex>)
    ensures Deduplicates(cs, Dedup(cs).vertices, Dedup(cs).indices)
  {
    DedupIndices(cs);
    DedupConsistent(cs);
    ConsistentDistinct(Dedup(cs));
    DedupOrder(cs);
  }

  /** In first-occurrence order the head comes before every other element,
      and the tail is again in first-occurrence order. */
  lemma OrderHead(cs: seq<Vertex>, vs: seq<Vertex>)
    requires InFirstOccurrenceOrder(cs, vs) && vs != []
    ensures InFirstOccurrenceOrder(cs, vs[1..])
    ensures forall i :: 1 <= i < |vs| ==> FirstIndex(cs, vs[0]) < FirstIndex(cs, vs[i])
    ensures forall u :: u in vs[1..] <==> u in vs && u != vs[0]
  {
    forall u | u in vs[1..] ensures u != vs[0] {
      var i :| 0 <= i < |vs[1..]| && vs[1..][i] == u;
      assert vs[i + 1] == u;
    }
    assert vs == [vs[0]] + vs[1..];
  }

  lemma EmptyIffNoMembers(vs: seq<Vertex>)
    ensures vs == [] <==> forall v :: v !in vs
  {
    if vs != [] {
      assert vs[0] in vs;
    }
  }

  /** Two sequences listed in first-occurrence order of the same `cs`, holding
      the same vertices, are the same sequence. */
  lemma {:induction false} FirstOccurrenceOrderUnique(cs: seq<Vertex>, vs: seq<Vertex>, ws: seq<Vertex>)
    requires InFirstOccurrenceOrder(cs, vs) && InFirstOccurrenceOrder(cs, ws)
    requires forall v :: v in vs <==> v in ws
    ensures vs == ws
    decreases |vs|
  {
    EmptyIffNoMembers(vs);
    EmptyIffNoMembers(ws);
    if vs != [] {
      OrderHead(cs, vs);
      OrderHead(cs, ws);
      assert vs[0] == ws[0] by {
        assert vs[0] in ws && ws[0] in vs;
      }
      FirstOccurrenceOrderUnique(cs, vs[1..], ws[1..]);
      assert vs == [vs[0]] + vs[1..] && ws == [ws[0]] + ws[1..];
    }
  }

  /** The vertices of a deduplication are exactly the corners. */
  lemma DeduplicatesMembers(cs: seq<Vertex>, vs: seq<Vertex>, ixs: seq<nat>)
    requires Deduplicates(cs, vs, ixs)
    ensures forall v :: v in vs <==> v in cs
  {
    forall v | v in cs ensures v in vs {
      var k :| 0 <= k < |cs| && cs[k] == v;
      assert vs[ixs[k]] == v;
    }
  }

  /** `Deduplicates` pins the result down completely: the vertex and index
      lists of `Dedup` are the only ones that meet it. */
  lemma DeduplicatesOnlyDedup(cs: seq<Vertex>, vs: seq<Vertex>, ixs: seq<nat>)
    requires Deduplicates(cs, vs, ixs)
    ensures vs == Dedup(cs).vertices && ixs == Dedup(cs).indices
  {
    var m := Dedup(cs);
    DedupDeduplicates(cs);
    DeduplicatesMembers(cs, vs, ixs);
    DeduplicatesMembers(cs, m.vertices, m.indices);
    FirstOccurrenceOrderUnique(cs, vs, m.vertices);
    forall k | 0 <= k < |cs| ensures ixs[k] == m.indices[k] {
      assert vs[ixs[k]] == vs[m.indices[k]];
    }
  }

  /** The whole of `loadModel` on parsed data: one index per index entry of
      every shape, in order, each selecting a vertex equal to the one built
      from that entry; no duplicate vertices; first-occurrence order. */
  lemma LoadedMeshInOrder(a: Attrib, shapes: seq<Shape>, s: nat, k: nat)
    requires WellFormed(a, shapes) && s < |shapes| && k < |shapes[s].indices|
    ensures var m := Dedup(Corners(a, shapes));
      && |m.indices| == IndexCount(shapes)
      && IndexCount(shapes[..s]) + k < |m.indices|
      && m.indices[IndexCount(shapes[..s]) + k] < |m.vertices|
      && m.vertices[m.indices[IndexCount(shapes[..s]) + k]] == CornerVertex(a, shapes[s].indices[k])
      && Distinct(m.vertices)
      && InFirstOccurrenceOrder(Corners(a, shapes), m.vertices)
  {
    CornersInOrder(a, shapes, s, k);
    DedupDeduplicates(Corners(a, shapes));
  }

  /** The corners of the first `s + 1` shapes extend those of the first `s`. */
  lemma CornersStep(a: Attrib, shapes: seq<Shape>, s: nat)
    requires WellFormed(a, shapes) && s < |shapes|
    ensures WellFormed(a, shapes[..s]) && WellFormed(a, shapes[..s + 1])
    ensures Corners(a, shapes[..s + 1]) == Corners(a, shapes[..s]) + ShapeCorners(a, shapes[s].indices)
  {
    assert shapes[..s + 1][..s] == shapes[..s];
    assert shapes[..s + 1][s] == shapes[s];
    assert forall j :: 0 <= j < s ==> shapes[..s][j] == shapes[j];
  }

  /** The corners of the first `i + 1` indices extend those of the first `i`. */
  lemma ShapeCornersStep(a: Attrib, ixs: seq<Index>, i: nat)
    requires ShapeWellFormed(a, ixs) && i < |ixs|
    ensures ShapeWellFormed(a, ixs[..i]) && ShapeWellFormed(a, ixs[..i + 1])
    ensures ShapeCorners(a, ixs[..i + 1]) == ShapeCorners(a, ixs[..i]) + [CornerVertex(a, ixs[i])]
  {
    assert ixs[..i + 1][..i] == ixs[..i];
    assert forall j :: 0 <= j < i + 1 ==> ixs[..i + 1][j] == ixs[j];
  }

  /** One pass of the inner loop of `loadModel` extends the mesh of the corners
      seen so far by the next corner. */
  lemma DedupNextCorner(a: Attrib, done: seq<Vertex>, ixs: seq<Index>, i: nat)
    requires ShapeWellFormed(a, ixs) && i < |ixs|
    ensures ShapeWellFormed(a, ixs[..i]) && ShapeWellFormed(a, ixs[..i + 1])
    ensures Dedup(done + ShapeCorners(a, ixs[..i + 1]))
         == AddCorner(Dedup(done + ShapeCorners(a, ixs[..i])), CornerVertex(a, ixs[i]))
  {
    ShapeCornersStep(a, ixs, i);
    var before := done + ShapeCorners(a, ixs[..i]);
    assert done + ShapeCorners(a, ixs[..i + 1]) == before + [CornerVertex(a, ixs[i])];
    DedupLast(before, CornerVertex(a, ixs[i]));
  }

  /** One pass of the outer loop of `loadModel`: the inner loop starts from
      the corners of the shapes before `s` and, having walked all indices of
      shape `s`, ends at the corners of the shapes up to `s`. */
  lemma DedupNextShape(a: Attrib, shapes: seq<Shape>, s: nat)
    requires WellFormed(a, shapes) && s < |shapes|
    ensures WellFormed(a, shapes[..s]) && WellFormed(a, shapes[..s + 1]) && ShapeWellFormed(a, shapes[s].indices)
    ensures Corners(a, shapes[..s]) + ShapeCorners(a, shapes[s].indices[..0]) == Corners(a, shapes[..s])
    ensures Corners(a, shapes[..s]) + ShapeCorners(a, shapes[s].indices[..|shapes[s].indices|])
         == Corners(a, shapes[..s + 1])
  {
    CornersStep(a, shapes, s);
    assert shapes[s].indices[..0] == [];
    assert shapes[s].indices[..|shapes[s].indices|] == shapes[s].indices;
  }

  // ---------------------------------------------------------------------
  // The builder
  // ---------------------------------------------------------------------

  class Builder {
    var vertices: seq<Vertex>
    var indices: seq<nat>

    constructor ()
      ensures vertices == [] && indices == []
    {
      vertices, indices := [], [];
    }

    /** `Builder::loadModel` on the loader's result. A failed load throws
        before anything is cleared; otherwise both lists are rebuilt from the
        loaded data alone, whatever they held before. */
    method LoadModel(loaded: LoadResult) returns (r: Outcome)
      requires loaded.Loaded? ==> WellFormed(loaded.attrib, loaded.shapes)
      modifies this
      ensures loaded.LoadFailed? ==>
                r == Fail(loaded.warn + loaded.err) && vertices == old(vertices) && indices == old(indices)
      ensures loaded.Loaded? ==>
                && r == Pass
                && vertices == Dedup(Corners(loaded.attrib, loaded.shapes)).vertices
                && indices == Dedup(Corners(loaded.attrib, loaded.shapes)).indices
    {
      if loaded.LoadFailed? {
        return Fail(loaded.warn + loaded.err);
      }
      var attrib, shapes := loaded.attrib, loaded.shapes;

      vertices := [];
      indices := [];
      var uniqueVertices: map<Vertex, nat> := map[];

      for s := 0 to |shapes|
        invariant Mesh(vertices, indices, uniqueVertices) == Dedup(Corners(attrib, shapes[..s]))
      {
        var shape := shapes[s];
        ghost var done := Corners(attrib, shapes[..s]);
        DedupNextShape(attrib, shapes, s);
        for i := 0 to |shape.indices|
          invariant Mesh(vertices, indices, uniqueVertices) == Dedup(done + ShapeCorners(attrib, shape.indices[..i]))
        {
          var index := shape.indices[i];
          var vertex := CornerVertex(attrib, index);
          DedupNextCorner(attrib, done, shape.indices, i);

          if vertex !in uniqueVertices {
            uniqueVertices := uniqueVertices[vertex := |vertices|];
            vertices := vertices + [vertex];
          }
          indices := indices + [uniqueVertices[vertex]];
        }
      }
      assert shapes[..|shapes|] == shapes;
      return Pass;
    }
  }

  // ---------------------------------------------------------------------
  // The model: buffers and draw selection
  // ---------------------------------------------------------------------

  /** A device buffer: what was copied into it and its size in bytes. */
  datatype Buffer<T> = Buffer(contents: seq<T>, size: nat)

  /** The commands a model records into a command buffer. */
  datatype Command =
    | BindVertexBuffers(vertices: seq<Vertex>)
    | BindIndexBuffer(indices: seq<nat>)
    | Draw(vertexCount: nat, instanceCount: nat)
    | DrawIndexed(indexCount: nat, instanceCount: nat)

  class LgeModel {
    var vertexCount: nat
    var vertexBuffer: Buffer<Vertex>
    var hasIndexBuffer: bool
    var indexCount: nat
    var indexBuffer: Option<Buffer<nat>>

    /** The counts describe the buffers, and an index buffer exists exactly
        when there is at least one index. */
    ghost predicate Valid()
      reads this
    {
      && vertexCount >= 3
      && |vertexBuffer.contents| == vertexCount
      && vertexBuffer.size == VertexSize * vertexCount
      && hasIndexBuffer == (indexCount > 0)
      && hasIndexBuffer == indexBuffer.Some?
      && (indexBuffer.Some? ==>
            |indexBuffer.value.contents| == indexCount && indexBuffer.value.size == IndexSize * indexCount)
    }

    /** Every index in the index buffer selects a vertex of the vertex buffer. */
    ghost predicate IndicesInBounds()
      reads this
    {
      indexBuffer.Some? ==>
        forall k :: 0 <= k < |indexBuffer.value.contents| ==> indexBuffer.value.contents[k] < |vertexBuffer.contents|
    }

    /** `LgeModel(device, builder)`: upload the builder's vertices, then its indices. */
    constructor (builder: Builder)
      requires |builder.vertices| % U32 >= 3
      ensures Valid()
      ensures vertexCount == |builder.vertices| % U32 && vertexBuffer.contents == builder.vertices[..vertexCount]
      ensures indexCount == |builder.indices| % U32
      ensures indexBuffer.Some? ==> indexBuffer.value.contents == builder.indices[..indexCount]
      ensures |builder.vertices| < U32 && |builder.indices| < U32 &&
              (forall k :: 0 <= k < |builder.indices| ==> builder.indices[k] < |builder.vertices|)
              ==> IndicesInBounds()
    {
      vertexCount, vertexBuffer := 0, Buffer([], 0);
      hasIndexBuffer, indexCount, indexBuffer := false, 0, None;
      new;
      CreateVertexBuffers(builder.vertices);
      CreateIndexBuffers(builder.indices);
    }

    /** `createVertexBuffers`: the count is the vertex list's size cut to 32
        bits, must be at least 3, and the buffer receives that many vertices. */
    method CreateVertexBuffers(vertices: seq<Vertex>)
      requires |vertices| % U32 >= 3
      modifies this`vertexCount, this`vertexBuffer
      ensures vertexCount == |vertices| % U32 && vertexCount >= 3
      ensures vertexBuffer == Buffer(vertices[..vertexCount], VertexSize * vertexCount)
    {
      vertexCount := |vertices| % U32;
      assert vertexCount >= 3;
      var bufferSize := VertexSize * vertexCount;
      vertexBuffer := Buffer(vertices[..bufferSize / VertexSize], bufferSize);
    }

    /** `createIndexBuffers`: the count is the index list's size cut to 32
        bits; an index buffer is created, holding that many indices, only when
        the count is not zero. */
    method CreateIndexBuffers(indices: seq<nat>)
      modifies this`indexCount, this`hasIndexBuffer, this`indexBuffer
      ensures indexCount == |indices| % U32
      ensures hasIndexBuffer <==> indexCount > 0
      ensures hasIndexBuffer ==> indexBuffer == Some(Buffer(indices[..indexCount], IndexSize * indexCount))
      ensures !hasIndexBuffer ==> indexBuffer == old(indexBuffer)
    {
      indexCount := |indices| % U32;
      hasIndexBuffer := indexCount > 0;
      if !hasIndexBuffer {
        return;
      }
      var bufferSize := IndexSize * indexCount;
      indexBuffer := Some(Buffer(indices[..bufferSize / IndexSize], bufferSize));
    }

    /** `bind`: the vertex buffer always, the index buffer only when there is one. */
    method Bind() returns (cmds: seq<Command>)
      requires Valid()
      ensures indexBuffer.None? ==> cmds == [BindVertexBuffers(vertexBuffer.contents)]
      ensures indexBuffer.Some? ==>
                cmds == [BindVertexBuffers(vertexBuffer.contents), BindIndexBuffer(indexBuffer.value.contents)]
    {
      cmds := [BindVertexBuffers(vertexBuffer.contents)];
      if hasIndexBuffer {
        cmds := cmds + [BindIndexBuffer(indexBuffer.value.contents)];
      }
    }

    /** `draw`: an indexed draw over the whole index buffer when there is one,
        otherwise a plain draw over the whole vertex buffer; one instance. */
    method Draw() returns (cmd: Command)
      requires Valid()
      ensures cmd.DrawIndexed? <==> indexBuffer.Some?
      ensures indexBuffer.Some? ==> cmd == DrawIndexed(|indexBuffer.value.contents|, 1)
      ensures indexBuffer.None? ==> cmd == Command.Draw(|vertexBuffer.contents|, 1)
    {
      if hasIndexBuffer {
        cmd := DrawIndexed(indexCount, 1);
      } else {
        cmd := Command.Draw(vertexCount, 1);
      }
    }
  }

  /** `createModelFromFile`: load into a fresh builder, then build the model
      from it. A model built from a loaded file of fewer than 2^32 corners
      never indexes past its vertex buffer. */
  method CreateModelFromFile(loaded: LoadResult) returns (model: LgeModel?, r: Outcome)
    requires loaded.Loaded? ==>
               && WellFormed(loaded.attrib, loaded.shapes)
               && |Dedup(Corners(loaded.attrib, loaded.shapes)).vertices| % U32 >= 3
    ensures loaded.LoadFailed? ==> model == null && r == Fail(loaded.warn + loaded.err)
    ensures loaded.Loaded? ==> r == Pass && model != null && fresh(model) && model.Valid()
    // the buffers hold the deduplicated mesh of the loaded file, cut to the 32-bit counts
    ensures loaded.Loaded? ==>
              var m := Dedup(Corners(loaded.attrib, loaded.shapes));
              && model != null
              && model.vertexCount == |m.vertices| % U32 && model.vertexBuffer.contents == m.vertices[..model.vertexCount]
              && model.indexCount == |m.indices| % U32
              && (model.indexBuffer.Some? ==> model.indexBuffer.value.contents == m.indices[..model.indexCount])
    ensures loaded.Loaded? && IndexCount(loaded.shapes) < U32 ==> model != null && model.IndicesInBounds()
  {
    var builder := new Builder();
    r := builder.LoadModel(loaded);
    if r.Fail? {
      return null, r;
    }
    ghost var cs := Corners(loaded.attrib, loaded.shapes);
    ghost var m := Dedup(cs);
    assert builder.vertices == m.vertices && builder.indices == m.indices;
    DedupIndices(cs);
    model := new LgeModel(builder);
  }

  // ---------------------------------------------------------------------
  // Vertex input descriptions
  // ---------------------------------------------------------------------

  datatype InputRate = PerVertex
  datatype Format = R32G32B32Sfloat

  datatype BindingDescription = BindingDescription(binding: nat, stride: nat, inputRate: InputRate)
  datatype AttributeDescription = AttributeDescription(location: nat, binding: nat, format: Format, offset: nat)

  /** Bytes per element of a vertex attribute format. */
  function FormatSize(f: Format): nat
  {
    match f
    case R32G32B32Sfloat => 3 * FloatSize
  }

  /** `getBindingDescriptions`: one per-vertex binding whose stride is one whole vertex. */
  function BindingDescriptions(): (r: seq<BindingDescription>)
    ensures |r| == 1 && r[0].binding == 0 && r[0].stride == VertexSize && r[0].inputRate == PerVertex
  {
    [BindingDescription(0, VertexSize, PerVertex)]
  }

  /** `getAttributeDescriptions`: position at location 0 and colour at
      location 1, both read from the single binding, each exactly its field of
      the vertex; each attribute lies inside one vertex and no two overlap. */
  function AttributeDescriptions(): (r: seq<AttributeDescription>)
    ensures |r| == 2 && r[0].location == 0 && r[1].location == 1
    // location 0 reads the whole position field, location 1 the whole colour field
    ensures r[0].offset == PositionOffset && r[0].offset + FormatSize(r[0].format) == ColorOffset
    ensures r[1].offset == ColorOffset && r[1].offset + FormatSize(r[1].format) == NormalOffset
    ensures forall i :: 0 <= i < |r| ==>
              r[i].binding == BindingDescriptions()[0].binding && r[i].offset + FormatSize(r[i].format) <= VertexSize
    ensures forall i, j :: 0 <= i < j < |r| ==> r[i].offset + FormatSize(r[i].format) <= r[j].offset
  {
    [ AttributeDescription(0, 0, R32G32B32Sfloat, PositionOffset),
      AttributeDescription(1, 0, R32G32B32Sfloat, ColorOffset) ]
  }
}
