/**
 * Loading the diamond mesh: the first mesh of an imported scene becomes a
 * vertex buffer and a triangle buffer for the compute shader, and one pass
 * over the vertices gives the planar (X/Z) framing the camera uses.
 * The importer itself is not modelled; its output is an `ImportResult`.
 */
module MeshLoader {
  import opened Wrappers
  import opened Reals

  // ---------------------------------------------------------------------
  // What the importer hands over
  // ---------------------------------------------------------------------

  datatype AiVector = AiVector(x: real, y: real, z: real)

  /** A face lists the indices of its corners; after triangulation most have 3. */
  datatype AiFace = AiFace(indices: seq<nat>)

  datatype AiMesh = AiMesh(vertices: seq<AiVector>, normals: Option<seq<AiVector>>, faces: seq<AiFace>)

  /** A failed import (no scene, no root node, or an incomplete scene), or the
      meshes of the scene. */
  datatype ImportResult = ImportFailed | Imported(meshes: seq<AiMesh>)

  /** When a mesh has normals there is one per vertex. */
  predicate WellFormedMesh(m: AiMesh)
  {
    m.normals.Some? ==> |m.normals.value| == |m.vertices|
  }

  // ---------------------------------------------------------------------
  // The GPU-side records
  // ---------------------------------------------------------------------

  /** A vertex as the shader reads it: position and normal, each padded to 4. */
  datatype Vertex = Vertex(px: real, py: real, pz: real, pw: real,
                           nx: real, ny: real, nz: real, nw: real)

  /** A triangle as the shader reads it: three vertex indices and a pad. */
  datatype Triangle = Triangle(v0: nat, v1: nat, v2: nat, w: nat)

  /** Vertex i of the mesh: w = 1 for the position, w = 0 for the normal,
      and the normal (0, 0, 1) when the mesh carries none. */
  function ToVertex(m: AiMesh, i: nat): Vertex
    requires WellFormedMesh(m) && i < |m.vertices|
  {
    var p := m.vertices[i];
    if m.normals.Some? then
      var n := m.normals.value[i];
      Vertex(p.x, p.y, p.z, 1.0, n.x, n.y, n.z, 0.0)
    else
      Vertex(p.x, p.y, p.z, 1.0, 0.0, 0.0, 1.0, 0.0)
  }

  /** The vertex buffer: one vertex per mesh vertex, in order, with the
      position copied and the normal copied or defaulted. */
  function ConvertVertices(m: AiMesh): (vs: seq<Vertex>)
    requires WellFormedMesh(m)
    ensures |vs| == |m.vertices|
    ensures forall i :: 0 <= i < |vs| ==>
      vs[i].px == m.vertices[i].x && vs[i].py == m.vertices[i].y && vs[i].pz == m.vertices[i].z &&
      vs[i].pw == 1.0 && vs[i].nw == 0.0
    ensures forall i :: 0 <= i < |vs| && m.normals.Some? ==>
      vs[i].nx == m.normals.value[i].x && vs[i].ny == m.normals.value[i].y && vs[i].nz == m.normals.value[i].z
    ensures forall i :: 0 <= i < |vs| && m.normals.None? ==>
      vs[i].nx == 0.0 && vs[i].ny == 0.0 && vs[i].nz == 1.0
  {
    seq(|m.vertices|, i requires 0 <= i < |m.vertices| => ToVertex(m, i))
  }

  // ---------------------------------------------------------------------
  // Faces to triangles
  // ---------------------------------------------------------------------

  function TriangleOf(f: AiFace): Triangle
    requires |f.indices| == 3
  {
    Triangle(f.indices[0], f.indices[1], f.indices[2], 0)
  }

  /** The triangle buffer: the faces with exactly three indices, in order;
      every other face is skipped. */
  function KeepTriangles(faces: seq<AiFace>): seq<Triangle>
  {
    if |faces| == 0 then []
    else
      var last := faces[|faces| - 1];
      KeepTriangles(faces[..|faces| - 1]) + (if |last.indices| == 3 then [TriangleOf(last)] else [])
  }

  /** Filtering distributes over concatenation: the order of the faces is the
      order of the triangles. */
  lemma {:induction false} KeepTrianglesAppend(a: seq<AiFace>, b: seq<AiFace>)
    ensures KeepTriangles(a + b) == KeepTriangles(a) + KeepTriangles(b)
    decreases |b|
  {
    if |b| == 0 {
      assert a + b == a;
    } else {
      var b' := b[..|b| - 1];
      assert (a + b)[..|a + b| - 1] == a + b';
      assert (a + b)[|a + b| - 1] == b[|b| - 1];
      KeepTrianglesAppend(a, b');
    }
  }

  /** A single face gives its triangle when it has three indices and nothing
      otherwise; with KeepTrianglesAppend this determines KeepTriangles. */
  lemma KeepTrianglesSingle(f: AiFace)
    ensures |f.indices| == 3 ==> KeepTriangles([f]) == [TriangleOf(f)]
    ensures |f.indices| != 3 ==> KeepTriangles([f]) == []
  {
    assert [f][..0] == [];
  }

  /** Every triangle comes from a face with three indices and has w = 0, and
      every such face gives a triangle. */
  lemma {:induction false} KeepTrianglesMembers(faces: seq<AiFace>, t: Triangle)
    ensures t in KeepTriangles(faces) <==>
      exists i :: 0 <= i < |faces| && |faces[i].indices| == 3 && t == TriangleOf(faces[i])
    ensures t in KeepTriangles(faces) ==> t.w == 0
    decreases |faces|
  {
    if |faces| > 0 {
      var n := |faces| - 1;
      var init := faces[..n];
      KeepTrianglesMembers(init, t);
      if t in KeepTriangles(faces) && t !in KeepTriangles(init) {
        assert |faces[n].indices| == 3 && t == TriangleOf(faces[n]);
      }
      if exists i :: 0 <= i < |faces| && |faces[i].indices| == 3 && t == TriangleOf(faces[i]) {
        var i :| 0 <= i < |faces| && |faces[i].indices| == 3 && t == TriangleOf(faces[i]);
        if i < n {
          assert init[i] == faces[i];
        }
      }
    }
  }

  /** No face gives more than one triangle. */
  lemma {:induction false} KeepTrianglesLength(faces: seq<AiFace>)
    ensures |KeepTriangles(faces)| <= |faces|
    decreases |faces|
  {
    if |faces| > 0 {
      KeepTrianglesLength(faces[..|faces| - 1]);
    }
  }

  /** When every face is a triangle, the buffer holds one triangle per face,
      at the face's own position. */
  lemma {:induction false} KeepAllTriangles(faces: seq<AiFace>)
    requires forall i :: 0 <= i < |faces| ==> |faces[i].indices| == 3
    ensures |KeepTriangles(faces)| == |faces|
    ensures forall i :: 0 <= i < |faces| ==> KeepTriangles(faces)[i] == TriangleOf(faces[i])
    decreases |faces|
  {
    if |faces| > 0 {
      var init := faces[..|faces| - 1];
      KeepAllTriangles(init);
    }
  }

  // ---------------------------------------------------------------------
  // Planar bounds and framing
  // ---------------------------------------------------------------------

  /** The starting value of the running minimum and minus that of the maximum. */
  const Far: real := 1000000000000000000000000000000.0

  datatype Bounds = Bounds(minX: real, maxX: real, minZ: real, maxZ: real)

  const InitialBounds: Bounds := Bounds(Far, -Far, Far, -Far)

  /** One step of the bounds pass: the bounds only widen, and afterwards
      they contain the vertex. */
  function Include(b: Bounds, v: Vertex): (r: Bounds)
    ensures r.minX <= b.minX && b.maxX <= r.maxX && r.minZ <= b.minZ && b.maxZ <= r.maxZ
    ensures r.minX <= v.px <= r.maxX && r.minZ <= v.pz <= r.maxZ
  {
    Bounds(Min(b.minX, v.px), Max(b.maxX, v.px), Min(b.minZ, v.pz), Max(b.maxZ, v.pz))
  }

  /** The running min/max over X and Z after the whole vertex list. */
  function XZBounds(vs: seq<Vertex>): Bounds
  {
    if |vs| == 0 then InitialBounds else Include(XZBounds(vs[..|vs| - 1]), vs[|vs| - 1])
  }

  /** Every vertex lies inside the bounds, and for a non-empty list the
      minimum is at most the maximum. */
  lemma {:induction false} BoundsEnclose(vs: seq<Vertex>)
    ensures forall i :: 0 <= i < |vs| ==>
      XZBounds(vs).minX <= vs[i].px <= XZBounds(vs).maxX &&
      XZBounds(vs).minZ <= vs[i].pz <= XZBounds(vs).maxZ
    ensures |vs| > 0 ==> XZBounds(vs).minX <= XZBounds(vs).maxX && XZBounds(vs).minZ <= XZBounds(vs).maxZ
    decreases |vs|
  {
    if |vs| > 0 {
      var init := vs[..|vs| - 1];
      BoundsEnclose(init);
      forall i | 0 <= i < |init|
        ensures init[i] == vs[i]
      {
      }
    }
  }

  /** When no coordinate lies beyond the starting values, the four bounds
      are attained by vertices of a non-empty list. */
  lemma {:induction false} BoundsAttained(vs: seq<Vertex>)
    requires |vs| > 0
    requires forall i :: 0 <= i < |vs| ==> -Far <= vs[i].px <= Far && -Far <= vs[i].pz <= Far
    ensures exists i :: 0 <= i < |vs| && vs[i].px == XZBounds(vs).minX
    ensures exists i :: 0 <= i < |vs| && vs[i].px == XZBounds(vs).maxX
    ensures exists i :: 0 <= i < |vs| && vs[i].pz == XZBounds(vs).minZ
    ensures exists i :: 0 <= i < |vs| && vs[i].pz == XZBounds(vs).maxZ
    decreases |vs|
  {
    var n := |vs| - 1;
    var b := XZBounds(vs);
    if n == 0 {
      assert vs[..n] == [];
      assert XZBounds(vs[..n]) == InitialBounds;
      assert b == Include(InitialBounds, vs[0]);
      assert vs[0].px == b.minX && vs[0].px == b.maxX && vs[0].pz == b.minZ && vs[0].pz == b.maxZ;
    } else {
      var init := vs[..n];
      assert forall i :: 0 <= i < |init| ==> init[i] == vs[i];
      BoundsAttained(init);
      var b0 := XZBounds(init);
      var i1 :| 0 <= i1 < |init| && init[i1].px == b0.minX;
      var i2 :| 0 <= i2 < |init| && init[i2].px == b0.maxX;
      var i3 :| 0 <= i3 < |init| && init[i3].pz == b0.minZ;
      var i4 :| 0 <= i4 < |init| && init[i4].pz == b0.maxZ;
      assert vs[if b.minX == vs[n].px then n else i1].px == b.minX;
      assert vs[if b.maxX == vs[n].px then n else i2].px == b.maxX;
      assert vs[if b.minZ == vs[n].pz then n else i3].pz == b.minZ;
      assert vs[if b.maxZ == vs[n].pz then n else i4].pz == b.maxZ;
    }
  }

  /** The centre of the X/Z footprint and the radius of the circle the
      camera frames. */
  datatype Framing = Framing(centerX: real, centerZ: real, radius: real)

  /** Centre at the midpoints, radius 5% beyond the larger half-extent. */
  function FramingOf(b: Bounds): Framing
  {
    var rX := 0.5 * (b.maxX - b.minX);
    var rZ := 0.5 * (b.maxZ - b.minZ);
    Framing(0.5 * (b.minX + b.maxX), 0.5 * (b.minZ + b.maxZ), Max(rX, rZ) * 1.05)
  }

  /** For a non-empty vertex list the radius is not negative and, shrunk by
      the 5% margin, still reaches every vertex along X and along Z. */
  lemma FramingEncloses(vs: seq<Vertex>)
    requires |vs| > 0
    ensures FramingOf(XZBounds(vs)).radius >= 0.0
    ensures forall i :: 0 <= i < |vs| ==>
      1.05 * Abs(vs[i].px - FramingOf(XZBounds(vs)).centerX) <= FramingOf(XZBounds(vs)).radius &&
      1.05 * Abs(vs[i].pz - FramingOf(XZBounds(vs)).centerZ) <= FramingOf(XZBounds(vs)).radius
  {
    BoundsEnclose(vs);
  }

  /** An empty vertex list is not an error: the bounds keep their starting
      values, the centre is the origin and the radius is -1.05e30. */
  lemma EmptyFraming()
    ensures XZBounds([]) == InitialBounds
    ensures FramingOf(XZBounds([])) == Framing(0.0, 0.0, -1.05 * Far)
  {
  }

  /** When all vertices share one X and one Z the radius is exactly 0 (there
      is no fallback to a minimum radius). */
  lemma DegenerateFraming(vs: seq<Vertex>, x: real, z: real)
    requires |vs| > 0
    requires -Far <= x <= Far && -Far <= z <= Far
    requires forall i :: 0 <= i < |vs| ==> vs[i].px == x && vs[i].pz == z
    ensures FramingOf(XZBounds(vs)) == Framing(x, z, 0.0)
  {
    BoundsAttained(vs);
    var b := XZBounds(vs);
    assert b.minX == x && b.maxX == x && b.minZ == z && b.maxZ == z;
  }

  function At(x: real, z: real): Vertex
  {
    Vertex(x, 0.0, z, 1.0, 0.0, 0.0, 1.0, 0.0)
  }

  /** A triangle footprint from X -1 to 1 and Z -2 to 2 is framed at the
      origin with radius 2.1. */
  lemma FramingExample()
    ensures FramingOf(XZBounds([At(-1.0, -2.0), At(1.0, -2.0), At(0.0, 2.0)])) == Framing(0.0, 0.0, 2.1)
  {
    var vs := [At(-1.0, -2.0), At(1.0, -2.0), At(0.0, 2.0)];
    assert vs[..2][..1][..0] == [];
    assert vs[..2][..1] == [At(-1.0, -2.0)];
    assert vs[..2] == [At(-1.0, -2.0), At(1.0, -2.0)];
    assert XZBounds(vs[..2][..1]) == Bounds(-1.0, -1.0, -2.0, -2.0);
    assert XZBounds(vs[..2]) == Bounds(-1.0, 1.0, -2.0, -2.0);
    assert XZBounds(vs) == Bounds(-1.0, 1.0, -2.0, 2.0);
  }

  // ---------------------------------------------------------------------
  // The loader's state
  // ---------------------------------------------------------------------

  /** The buffers and framing the loader fills in, kept between frames. */
  class Scene {
    var vertices: seq<Vertex>
    var triangles: seq<Triangle>
    var centerX: real
    var centerZ: real
    var radius: real

    /** Before loading: empty buffers, centre at the origin, radius 1. */
    constructor()
      ensures vertices == [] && triangles == []
      ensures centerX == 0.0 && centerZ == 0.0 && radius == 1.0
    {
      vertices := [];
      triangles := [];
      centerX := 0.0;
      centerZ := 0.0;
      radius := 1.0;
    }

    function Framed(): Framing
      reads this
    {
      Framing(centerX, centerZ, radius)
    }

    /** Loads the first mesh of an import. A failed import or a scene without
        meshes reports false and leaves the state as it was; otherwise the
        buffers are replaced by the converted first mesh and the framing is
        that of its vertices. */
    method Load(imported: ImportResult) returns (ok: bool)
      requires imported.Imported? && |imported.meshes| > 0 ==> WellFormedMesh(imported.meshes[0])
      modifies this
      ensures ok <==> imported.Imported? && |imported.meshes| > 0
      ensures !ok ==> unchanged(this)
      ensures ok ==> vertices == ConvertVertices(imported.meshes[0])
      ensures ok ==> triangles == KeepTriangles(imported.meshes[0].faces)
      ensures ok ==> Framed() == FramingOf(XZBounds(vertices))
    {
      if imported.ImportFailed? {
        return false;
      }
      if |imported.meshes| == 0 {
        return false;
      }
      vertices := [];
      triangles := [];
      var mesh := imported.meshes[0];

      var i := 0;
      while i < |mesh.vertices|
        invariant 0 <= i <= |mesh.vertices|
        invariant |vertices| == i && triangles == []
        invariant forall k :: 0 <= k < i ==> vertices[k] == ToVertex(mesh, k)
      {
        vertices := vertices + [ToVertex(mesh, i)];
        i := i + 1;
      }
      assert vertices == ConvertVertices(mesh);

      i := 0;
      while i < |mesh.faces|
        invariant 0 <= i <= |mesh.faces|
        invariant triangles == KeepTriangles(mesh.faces[..i])
        invariant vertices == ConvertVertices(mesh)
      {
        var face := mesh.faces[i];
        assert mesh.faces[..i + 1][..i] == mesh.faces[..i];
        if |face.indices| == 3 {
          triangles := triangles + [Triangle(face.indices[0], face.indices[1], face.indices[2], 0)];
        }
        i := i + 1;
      }
      assert mesh.faces[..i] == mesh.faces;

      var minX, maxX := Far, -Far;
      var minZ, maxZ := Far, -Far;
      i := 0;
      while i < |vertices|
        invariant 0 <= i <= |vertices|
        invariant Bounds(minX, maxX, minZ, maxZ) == XZBounds(vertices[..i])
        invariant vertices == ConvertVertices(mesh)
        invariant triangles == KeepTriangles(mesh.faces)
      {
        var v := vertices[i];
        assert vertices[..i + 1][..i] == vertices[..i];
        minX := Min(minX, v.px);
        maxX := Max(maxX, v.px);
        minZ := Min(minZ, v.pz);
        maxZ := Max(maxZ, v.pz);
        i := i + 1;
      }
      assert vertices[..i] == vertices;

      centerX := 0.5 * (minX + maxX);
      centerZ := 0.5 * (minZ + maxZ);
      var rX := 0.5 * (maxX - minX);
      var rZ := 0.5 * (maxZ - minZ);
      radius := Max(rX, rZ) * 1.05;
      return true;
    }
  }
}
