/** The polygon class of the triangulator and the triangulate driver. Every
    method that changes the object is proved to leave it in the state, and to
    return the value, that the matching function of module Tracker describes;
    the properties are proved about those functions. */
module Polygons {
  import opened Geom
  import opened Neighbours
  import opened Tracker

  class Polygon {
    /** The input coordinates; vertex id i stands for vertices[i]. */
    const vertices: seq<Vec2>
    /** The ring of surviving vertex ids, in input order. */
    var vertexList: seq<nat>
    var convexList: set<nat>
    var reflexList: set<nat>
    var earList: set<nat>

    /** The four fields as a value. */
    function Model(): PolygonState
      reads this
    {
      PolygonState(vertexList, convexList, reflexList, earList)
    }

    ghost predicate Valid()
      reads this
    {
      ValidState(vertices, Model())
    }

    /** Seeds the ring with 0, ..., n - 1, classifies every vertex by the
        geometric tests, then tests every convex vertex for earness. */
    constructor (vertices: seq<Vec2>)
      ensures this.vertices == vertices
      ensures Model() == Seeded(vertices)
      ensures Valid() && LastPinned(vertices, Model())
    {
      this.vertices := vertices;
      vertexList, convexList, reflexList, earList := [], {}, {}, {};
      new;
      SeedRing();
      ClassifyAll();
      ClassifiedWellFormed(vertices);
      InitialEarTests(vertices);
      SeededWellFormed(vertices);
      FindEars(InitialEars(vertices));
    }

    /** The constructor's first loop: push every vertex id in order. */
    method SeedRing()
      requires vertexList == [] && convexList == {} && reflexList == {} && earList == {}
      modifies this
      ensures Model() == PolygonState(Iota(|vertices|), {}, {}, {})
    {
      var i := 0;
      while i < |vertices|
        invariant i <= |vertices|
        invariant vertexList == Iota(i)
        invariant convexList == {} && reflexList == {} && earList == {}
      {
        vertexList := vertexList + [i];
        i := i + 1;
      }
    }

    /** The constructor's second loop: put every vertex whose neighbour
        triangle turns left in the convex set and every vertex whose triangle
        turns right in the reflex set. */
    method ClassifyAll()
      requires Model() == PolygonState(Iota(|vertices|), {}, {}, {})
      modifies this
      ensures Model() == Classified(vertices)
    {
      var k := 0;
      while k < |vertexList|
        invariant k <= |vertexList| == |vertices|
        invariant vertexList == Iota(|vertices|) && earList == {}
        invariant convexList == ConvexBelow(vertices, k)
        invariant reflexList == ReflexBelow(vertices, k)
      {
        ClassifyVertex(k);
        k := k + 1;
      }
    }

    /** One visit of the constructor's second loop: classify vertex k by its
        neighbour triangle in the initial ring. */
    method ClassifyVertex(k: nat)
      requires k < |vertices| && vertexList == Iota(|vertices|) && earList == {}
      requires convexList == ConvexBelow(vertices, k) && reflexList == ReflexBelow(vertices, k)
      modifies this
      ensures vertexList == Iota(|vertices|) && earList == {}
      ensures convexList == ConvexBelow(vertices, k + 1) && reflexList == ReflexBelow(vertices, k + 1)
    {
      var vertex := vertexList[k];
      assert vertex == k;
      var abc := BuildRealTriangleAt(vertex).value;
      assert abc == SeedTriangle(vertices, k) by {
        InitialRingTriangle(vertices, vertex);
      }
      if IsConvex(abc) {
        convexList := convexList + {vertex};
      }
      if IsReflex(abc) {
        reflexList := reflexList + {vertex};
      }
    }

    /** The constructor's third loop: visit the convex set in ascending
        order and add every vertex that passes the full ear test, so that
        the ear set ends up as the given set of convex vertices whose test
        says yes. */
    method FindEars(ghost ears: set<nat>)
      requires earList == {} && ValidState(vertices, Model()) && LastPinned(vertices, Model())
      requires ears <= convexList
      requires EarsAnswered(vertices, Model(), ears)
      modifies this
      ensures Model() == old(Model()).(ears := ears)
    {
      ghost var start := Model();
      var todo := convexList;
      while todo != {}
        invariant todo <= convexList
        invariant Model() == start.(ears := earList)
        invariant earList == ears - todo
        decreases |todo|
      {
        var vertex := SetMin(todo);
        assert Valid() by {
          FewerEarsKeepValid(vertices, start, earList);
        }
        var ear := CheckEar(vertex, start, ears);
        ScanStep(ears, todo, earList, vertex);
        if ear {
          earList := earList + {vertex};
        }
        todo := todo - {vertex};
      }
    }

    /** One step of the constructor's third loop: the full ear test of a
        convex vertex, answered from the ears the test is known to accept. */
    method CheckEar(v: nat, ghost start: PolygonState, ghost ears: set<nat>) returns (ear: bool)
      requires Valid() && Model() == start.(ears := earList)
      requires v in start.convex && EarsAnswered(vertices, start, ears)
      ensures ear <==> v in ears
    {
      var r := IsEar(v, false);
      assert r == EarnessOf(vertices, start, v, false);
      ear := r.value;
    }

    /** build_fake_triangle_at: v's neighbour triangle in the ring, as ids. */
    function BuildFakeTriangleAt(v: nat): (r: Result<FakeTriangle>)
      reads this
      ensures r.Err? <==> v !in vertexList
      ensures r.Err? ==> r.error == ElementNotFound
      ensures r.Ok? ==> r.value.B == v && r.value.A in vertexList && r.value.C in vertexList
      ensures r.Ok? ==>
        var i := IndexOf(vertexList, v);
        && r.value.A == CyclicPrev(vertexList, i)
        && (i < |vertexList| - 1 ==> r.value.C == CyclicNext(vertexList, i))
        && (i == |vertexList| - 1 ==> r.value.C == v)
    {
      if v in vertexList then
        NeighboursOfElement(vertexList, v);
        BuildTriangleAtElement(vertexList, v)
      else
        BuildTriangleAtElement(vertexList, v)
    }

    /** build_real_triangle_at: v's neighbour triangle in the ring, as points;
        it exists for every ring vertex once every ring id indexes a point. */
    function BuildRealTriangleAt(v: nat): (r: Result<RealTriangle>)
      reads this
      ensures r.Ok? ==> v in vertexList && v < |vertices| && r.value.B == vertices[v]
      ensures r.Ok? <==> (BuildFakeTriangleAt(v).Ok? && v < |vertices| &&
                          BuildFakeTriangleAt(v).value.A < |vertices| &&
                          BuildFakeTriangleAt(v).value.C < |vertices|)
      ensures r.Ok? ==> (r.value.A == vertices[BuildFakeTriangleAt(v).value.A] &&
                         r.value.C == vertices[BuildFakeTriangleAt(v).value.C])
      ensures r.Err? ==> r.error == ElementNotFound || r.error == VertexOutOfRange
      ensures (forall x :: x in vertexList ==> x < |vertices|) && v in vertexList ==> r.Ok?
    {
      RealTriangleIn(vertices, vertexList, v)
    }

    /** is_convex: a vertex already in the convex set is convex without any
        geometry; any other vertex is convex when its neighbour triangle
        turns left. */
    function IsConvexVertex(v: nat): (r: Result<bool>)
      reads this
      ensures v in convexList ==> r == Ok(true)
      ensures v !in convexList ==> r.Err? == BuildRealTriangleAt(v).Err?
      ensures v !in convexList && r.Ok? ==> (r.value <==> TriangleDet(BuildRealTriangleAt(v).value) > 0.0)
    {
      ConvexityOf(vertices, Model(), v)
    }

    /** is_reflex: a vertex already in the reflex set is reflex without any
        geometry; any other vertex is reflex when its neighbour triangle
        turns right. */
    function IsReflexVertex(v: nat): (r: Result<bool>)
      reads this
      ensures v in reflexList ==> r == Ok(true)
      ensures v !in reflexList ==> r.Err? == BuildRealTriangleAt(v).Err?
      ensures v !in reflexList && r.Ok? ==> (r.value <==> TriangleDet(BuildRealTriangleAt(v).value) < 0.0)
    {
      ReflexityOf(vertices, Model(), v)
    }

    /** is_ear: with the pre-test a known ear is an ear; otherwise v is an ear
        when no reflex vertex lies inside or on its neighbour triangle. The
        reflex set is scanned in ascending order and the scan stops at the
        first reflex vertex found inside. */
    method IsEar(v: nat, preTest: bool) returns (r: Result<bool>)
      requires Valid()
      ensures r == EarnessOf(vertices, Model(), v, preTest)
    {
      if preTest && v in earList {
        return Ok(true);
      }
      var abc := BuildRealTriangleAt(v);
      if abc.Err? {
        return Err(abc.error);
      }
      var todo := reflexList;
      while todo != {}
        invariant todo <= reflexList
        invariant forall x :: x in reflexList - todo ==> !PointInTriangle(abc.value, vertices[x])
        decreases |todo|
      {
        var reflexVertex := SetMin(todo);
        if PointInTriangle(abc.value, vertices[reflexVertex]) {
          return Ok(false);
        }
        todo := todo - {reflexVertex};
      }
      return Ok(true);
    }

    /** update_vertex_convexity: a vertex found convex joins the convex set
        and leaves the reflex set. */
    method UpdateVertexConvexity(v: nat) returns (r: Result<bool>)
      requires Valid()
      modifies this
      ensures Valid()
      ensures Step(Model(), r) == ConvexityUpdate(vertices, old(Model()), v)
    {
      var convex := IsConvexVertex(v);
      if convex.Err? {
        return Err(convex.error);
      }
      if convex.value {
        convexList := convexList + {v};
        reflexList := reflexList - {v};
        return Ok(true);
      }
      return Ok(false);
    }

    /** update_vertex_earness: v joins or leaves the ear set by the full ear
        test. The invariant survives when v is convex, as it is at the one
        place that calls it. */
    method UpdateVertexEarness(v: nat) returns (r: Result<bool>)
      requires Valid()
      modifies this
      ensures v in convexList ==> Valid()
      ensures Step(Model(), r) == EarnessUpdate(vertices, old(Model()), v)
    {
      var ear := IsEar(v, false);
      if ear.Err? {
        return Err(ear.error);
      }
      if ear.value {
        earList := earList + {v};
        return Ok(true);
      }
      earList := earList - {v};
      return Ok(false);
    }

    /** update_vertex: reclassify v, testing earness only when v is convex. */
    method UpdateVertex(v: nat) returns (r: Result<()>)
      requires Valid()
      modifies this
      ensures Valid()
      ensures Step(Model(), r) == VertexUpdate(vertices, old(Model()), v)
    {
      var convex := UpdateVertexConvexity(v);
      if convex.Err? {
        return Err(convex.error);
      }
      if convex.value {
        var ear := UpdateVertexEarness(v);
        if ear.Err? {
          return Err(ear.error);
        }
      }
      return Ok(());
    }

    /** remove_vertex: erase v from the ring and the sets, then reclassify
        its two neighbours; returns v's neighbour triangle. A throw part-way
        leaves the changes made so far in place. */
    method RemoveVertex(v: nat) returns (r: Result<FakeTriangle>)
      requires Valid()
      modifies this
      ensures Valid()
      ensures Step(Model(), r) == VertexRemoval(vertices, old(Model()), v)
    {
      ghost var s := Model();
      var abc := BuildFakeTriangleAt(v);
      if abc.Err? {
        return Err(abc.error);
      }
      var i := IndexOf(vertexList, v);
      vertexList := vertexList[..i] + vertexList[i + 1..];
      convexList := convexList - {v};
      reflexList := reflexList - {v};
      earList := earList - {v};
      assert Model() == PolygonState(EraseFirst(s.ring, v), s.convex - {v}, s.reflex - {v}, s.ears - {v}) && Valid() by {
        EraseFirstProperties(s.ring, v);
      }
      RemovalSteps(vertices, s, v);
      var a := UpdateVertex(abc.value.A);
      if a.Err? {
        return Err(a.error);
      }
      var c := UpdateVertex(abc.value.C);
      if c.Err? {
        return Err(c.error);
      }
      return Ok(abc.value);
    }

    /** has_ear: whether get_next_ear would succeed. */
    function HasEar(): (r: bool)
      reads this
      ensures r <==> GetNextEar().Ok?
    {
      earList != {}
    }

    /** get_next_ear: the smallest ear, or a throw when there is none. */
    function GetNextEar(): (r: Result<nat>)
      reads this
      ensures r.Err? <==> earList == {}
      ensures r.Err? ==> r.error == EarListEmpty
      ensures r.Ok? ==> r.value in earList && forall x :: x in earList ==> r.value <= x
    {
      if earList == {} then Err(EarListEmpty) else Ok(SetMin(earList))
    }

    /** size: the number of vertices left in the ring, never more than the
        number of input vertices. */
    function Size(): (r: nat)
      reads this
      ensures r == |vertexList|
      ensures Valid() ==> r <= |vertices|
    {
      ValidRingFits(vertices, Model());
      |vertexList|
    }
  }

  /** triangulate: clip the smallest ear while more than two vertices remain;
      fail as non-simple when none is left. */
  method Triangulate(vertices: seq<Vec2>) returns (r: Result<seq<FakeTriangle>>)
    ensures r == Clipped(vertices, Seeded(vertices))
    ensures r.Err? ==> r.error == NonSimplePolygon && |vertices| > 2
    ensures r.Ok? ==> |r.value| == if |vertices| > 2 then |vertices| - 2 else 0
    ensures r.Ok? ==> forall k :: 0 <= k < |r.value| ==> ProperEar(vertices, Iota(|vertices|), r.value[k])
    ensures r.Ok? ==> DistinctClipped(r.value)
  {
    var polygon := new Polygon(vertices);
    var triangles: seq<FakeTriangle> := [];
    SeededWellFormed(vertices);
    SeededEarsExact(vertices);
    ClippedShape(vertices, Seeded(vertices));
    ghost var whole := Clipped(vertices, Seeded(vertices));
    assert whole.Ok? ==> [] + whole.value == whole.value;
    while polygon.Size() > 2
      invariant polygon.vertices == vertices
      invariant polygon.Valid() && LastPinned(vertices, polygon.Model())
      invariant Clipped(vertices, Seeded(vertices)) == Prepend(triangles, Clipped(vertices, polygon.Model()))
      invariant EarsExact(vertices, polygon.Model())
      invariant polygon.reflexList == InitialReflex(vertices)
      decreases polygon.Size()
    {
      if !polygon.HasEar() {
        return Err(NonSimplePolygon);
      }
      var earVertex := polygon.GetNextEar().value;
      ghost var t: FakeTriangle, next: PolygonState := ClippedStep(vertices, polygon.Model());
      var ear := polygon.RemoveVertex(earVertex);
      PrependAppend(triangles, t, Clipped(vertices, next));
      triangles := triangles + [ear.value];
    }
    assert triangles + [] == triangles;
    return Ok(triangles);
  }

  /** The test polygon of the sample program. Its closing edge from the last
      vertex back to the first runs through vertex 1. */
  function SamplePolygon(): seq<Vec2> {
    [Vec2(2.0, 0.0), Vec2(1.0, 0.0), Vec2(0.0, 1.0), Vec2(-1.0, 0.0)]
  }

  /** Vertex 0 of the sample polygon lies on the line through its two
      neighbours. */
  lemma SampleVertex0Flat()
    ensures Det(Vec2(-1.0, 0.0), Vec2(2.0, 0.0), Vec2(1.0, 0.0)) == 0.0
  {
  }

  /** The sample polygon turns clockwise at vertex 1. */
  lemma SampleVertex1Reflex()
    ensures Det(Vec2(2.0, 0.0), Vec2(1.0, 0.0), Vec2(0.0, 1.0)) < 0.0
  {
  }

  /** The sample polygon turns counter-clockwise at vertex 2. */
  lemma SampleVertex2Convex()
    ensures Det(Vec2(1.0, 0.0), Vec2(0.0, 1.0), Vec2(-1.0, 0.0)) > 0.0
  {
  }

  /** On the sample polygon vertex 2 is the only convex vertex and vertex 1
      the only reflex one; vertex 1 is a corner of vertex 2's triangle, so
      there is no ear and the driver gives up at once. */
  lemma SampleHasNoEar(vs: seq<Vec2>)
    requires vs == SamplePolygon()
    ensures InitialConvex(vs) == {2} && InitialReflex(vs) == {1}
    ensures InitialEars(vs) == {}
    ensures Clipped(vs, Seeded(vs)) == Err(NonSimplePolygon)
  {
    SampleVertex0Flat();
    SampleVertex1Reflex();
    SampleVertex2Convex();
    QuadrilateralWithoutEar(vs, Vec2(2.0, 0.0), Vec2(1.0, 0.0), Vec2(0.0, 1.0), Vec2(-1.0, 0.0));
  }

  /** The sample program's handler prints the caught exception's message:
      for the sample polygon that is the non-simple message. */
  lemma SampleMessage(vs: seq<Vec2>)
    requires vs == SamplePolygon()
    ensures Clipped(vs, Seeded(vs)).Err?
    ensures Clipped(vs, Seeded(vs)).error.What() == "Triangulation failed; polygon is non-simple."
  {
    assert Clipped(vs, Seeded(vs)) == Err(NonSimplePolygon) by { SampleHasNoEar(vs); }
    NonSimpleMessage();
  }

  /** The sample program: triangulating its polygon throws the non-simple
      error, so it prints that error's message and no triangle. */
  method TriangulateSample() returns (r: Result<seq<FakeTriangle>>)
    ensures r == Err(NonSimplePolygon)
  {
    var vs := SamplePolygon();
    SampleHasNoEar(vs);
    r := Triangulate(vs);
  }
}
