/** The polygon state tracker as values: its four fields as a datatype, one
    function per operation that reads or changes them, and the properties of
    those functions. The class in module Polygons is proved to follow them. */
module Tracker {
  import opened Geom
  import opened Neighbours

  /** The fields of the tracker: the ring of surviving vertex ids and the
      convex, reflex and ear sets. */
  datatype PolygonState = PolygonState(ring: seq<nat>, convex: set<nat>, reflex: set<nat>, ears: set<nat>)

  /** What an operation that may throw part-way leaves behind: the state it
      reached and either its value or the error it threw. */
  datatype Step<+T> = Step(state: PolygonState, result: Result<T>)

  ghost predicate NoDuplicates(ring: seq<nat>) {
    forall i, j :: 0 <= i < j < |ring| ==> ring[i] != ring[j]
  }

  /** The tracker's invariant: the ring is duplicate-free and indexes the
      coordinates, the sets hold ring vertices only, no vertex is both convex
      and reflex, and every ear is convex. */
  ghost predicate ValidState(vs: seq<Vec2>, s: PolygonState) {
    && NoDuplicates(s.ring)
    && (forall x :: x in s.ring ==> x < |vs|)
    && (forall x :: x in s.convex ==> x in s.ring)
    && (forall x :: x in s.reflex ==> x in s.ring)
    && s.convex !! s.reflex
    && s.ears <= s.convex
  }

  /** The last input vertex stays at the end of the ring and in no set: its
      neighbour triangle is always degenerate (C == B). */
  ghost predicate LastPinned(vs: seq<Vec2>, s: PolygonState) {
    |vs| > 0 ==>
      && |s.ring| > 0
      && s.ring[|s.ring| - 1] == |vs| - 1
      && |vs| - 1 !in s.convex
      && |vs| - 1 !in s.reflex
      && |vs| - 1 !in s.ears
  }

  /** x is in the same sets in both states. */
  ghost predicate AgreeOn(s: PolygonState, t: PolygonState, x: nat) {
    && (x in s.convex <==> x in t.convex)
    && (x in s.reflex <==> x in t.reflex)
    && (x in s.ears <==> x in t.ears)
  }

  /** The ids 0, 1, ..., n - 1 in order. */
  function Iota(n: nat): (r: seq<nat>)
    ensures |r| == n
    ensures forall i :: 0 <= i < n ==> r[i] == i
  {
    if n == 0 then [] else Iota(n - 1) + [n - 1]
  }

  // ---------------------------------------------------------------------
  // Queries

  /** build_real_triangle_at: the neighbour triangle of v in the ring, as points. */
  function RealTriangleIn(vs: seq<Vec2>, ring: seq<nat>, v: nat): Result<RealTriangle> {
    match BuildTriangleAtElement(ring, v)
    case Err(e) => Err(e)
    case Ok(t) => MakeTriangleReal(vs, t)
  }

  /** polygon::is_convex: a cached yes, else the geometric test. */
  function ConvexityOf(vs: seq<Vec2>, s: PolygonState, v: nat): Result<bool> {
    if v in s.convex then Ok(true)
    else
      match RealTriangleIn(vs, s.ring, v)
      case Err(e) => Err(e)
      case Ok(t) => Ok(IsConvex(t))
  }

  /** polygon::is_reflex: a cached yes, else the geometric test. */
  function ReflexityOf(vs: seq<Vec2>, s: PolygonState, v: nat): Result<bool> {
    if v in s.reflex then Ok(true)
    else
      match RealTriangleIn(vs, s.ring, v)
      case Err(e) => Err(e)
      case Ok(t) => Ok(IsReflex(t))
  }

  /** No reflex vertex lies inside or on the triangle. */
  ghost predicate NoReflexInside(vs: seq<Vec2>, reflex: set<nat>, t: RealTriangle) {
    forall x :: x in reflex && x < |vs| ==> !PointInTriangle(t, vs[x])
  }

  /** polygon::is_ear: with the pre-test, a cached yes; otherwise whether no
      reflex vertex lies in the neighbour triangle. */
  ghost function EarnessOf(vs: seq<Vec2>, s: PolygonState, v: nat, preTest: bool): Result<bool> {
    if preTest && v in s.ears then Ok(true)
    else
      match RealTriangleIn(vs, s.ring, v)
      case Err(e) => Err(e)
      case Ok(t) => Ok(NoReflexInside(vs, s.reflex, t))
  }

  // ---------------------------------------------------------------------
  // State changes

  /** polygon::update_vertex_convexity. */
  function ConvexityUpdate(vs: seq<Vec2>, s: PolygonState, v: nat): Step<bool> {
    match ConvexityOf(vs, s, v)
    case Err(e) => Step(s, Err(e))
    case Ok(convex) =>
      if convex then Step(s.(convex := s.convex + {v}, reflex := s.reflex - {v}), Ok(true))
      else Step(s, Ok(false))
  }

  /** polygon::update_vertex_earness. */
  ghost function EarnessUpdate(vs: seq<Vec2>, s: PolygonState, v: nat): Step<bool> {
    match EarnessOf(vs, s, v, false)
    case Err(e) => Step(s, Err(e))
    case Ok(ear) =>
      if ear then Step(s.(ears := s.ears + {v}), Ok(true))
      else Step(s.(ears := s.ears - {v}), Ok(false))
  }

  /** polygon::update_vertex: the ear test runs only for a vertex found convex. */
  ghost function VertexUpdate(vs: seq<Vec2>, s: PolygonState, v: nat): Step<()> {
    var c := ConvexityUpdate(vs, s, v);
    match c.result
    case Err(e) => Step(c.state, Err(e))
    case Ok(convex) =>
      if !convex then Step(c.state, Ok(()))
      else
        var e := EarnessUpdate(vs, c.state, v);
        if e.result.Err? then Step(e.state, Err(e.result.error)) else Step(e.state, Ok(()))
  }

  /** vector::erase at std::find: drops the first occurrence of v. */
  function EraseFirst(ring: seq<nat>, v: nat): seq<nat> {
    var i := IndexOf(ring, v);
    if i < |ring| then ring[..i] + ring[i + 1..] else ring
  }

  /** polygon::remove_vertex: build v's triangle, drop v from the ring and
      the sets, then update the triangle's A and then its C. */
  ghost function VertexRemoval(vs: seq<Vec2>, s: PolygonState, v: nat): Step<FakeTriangle> {
    match BuildTriangleAtElement(s.ring, v)
    case Err(e) => Step(s, Err(e))
    case Ok(abc) =>
      var erased := PolygonState(EraseFirst(s.ring, v), s.convex - {v}, s.reflex - {v}, s.ears - {v});
      var a := VertexUpdate(vs, erased, abc.A);
      if a.result.Err? then Step(a.state, Err(a.result.error))
      else
        var c := VertexUpdate(vs, a.state, abc.C);
        if c.result.Err? then Step(c.state, Err(c.result.error)) else Step(c.state, Ok(abc))
  }

  // ---------------------------------------------------------------------
  // Construction and the driver

  /** The neighbour triangle of vertex v in the initial ring 0, ..., n - 1:
      there vertex v sits at position v, so this is the triangle at index v
      of the points themselves (see InitialRingTriangle). */
  function SeedTriangle(vs: seq<Vec2>, v: nat): RealTriangle
    requires v < |vs|
  {
    BuildTriangleAtIndex(vs, v).value
  }

  /** Whether vertex v's initial neighbour triangle turns left. */
  ghost predicate SeedConvex(vs: seq<Vec2>, v: nat) {
    v < |vs| && IsConvex(SeedTriangle(vs, v))
  }

  /** Whether vertex v's initial neighbour triangle turns right. */
  ghost predicate SeedReflex(vs: seq<Vec2>, v: nat) {
    v < |vs| && IsReflex(SeedTriangle(vs, v))
  }

  /** The convex set once the classification loop has visited 0, ..., k - 1. */
  ghost function ConvexBelow(vs: seq<Vec2>, k: nat): set<nat> {
    if k == 0 then {}
    else ConvexBelow(vs, k - 1) + if SeedConvex(vs, k - 1) then {k - 1} else {}
  }

  /** The reflex set once the classification loop has visited 0, ..., k - 1. */
  ghost function ReflexBelow(vs: seq<Vec2>, k: nat): set<nat> {
    if k == 0 then {}
    else ReflexBelow(vs, k - 1) + if SeedReflex(vs, k - 1) then {k - 1} else {}
  }

  ghost function InitialConvex(vs: seq<Vec2>): set<nat> {
    ConvexBelow(vs, |vs|)
  }

  ghost function InitialReflex(vs: seq<Vec2>): set<nat> {
    ReflexBelow(vs, |vs|)
  }

  /** The state once every vertex is classified and before the ear test. */
  ghost function Classified(vs: seq<Vec2>): PolygonState {
    PolygonState(Iota(|vs|), InitialConvex(vs), InitialReflex(vs), {})
  }

  /** The convex vertices that pass the ear test against the initial reflex set. */
  ghost function InitialEars(vs: seq<Vec2>): set<nat> {
    set v | v < |vs| && v in InitialConvex(vs) && NoReflexInside(vs, InitialReflex(vs), SeedTriangle(vs, v))
  }

  /** The state the polygon constructor builds. */
  ghost function Seeded(vs: seq<Vec2>): PolygonState {
    PolygonState(Iota(|vs|), InitialConvex(vs), InitialReflex(vs), InitialEars(vs))
  }

  function Prepend<T>(prefix: seq<T>, r: Result<seq<T>>): Result<seq<T>> {
    match r
    case Err(e) => Err(e)
    case Ok(rest) => Ok(prefix + rest)
  }

  /** triangulate from state s on: while more than two vertices remain, take
      the next ear and clip it. */
  ghost function Clipped(vs: seq<Vec2>, s: PolygonState): Result<seq<FakeTriangle>>
    decreases |s.ring|, 2
  {
    if |s.ring| <= 2 then Ok([]) else ClipRound(vs, s)
  }

  /** One round of the loop: fail as non-simple when no ear is left, else
      clip the smallest ear. */
  ghost function ClipRound(vs: seq<Vec2>, s: PolygonState): Result<seq<FakeTriangle>>
    decreases |s.ring|, 1
  {
    if s.ears == {} then Err(NonSimplePolygon) else ClipEar(vs, s, SetMin(s.ears))
  }

  /** Remove ear v, record its triangle and carry on with what is left. */
  ghost function ClipEar(vs: seq<Vec2>, s: PolygonState, v: nat): Result<seq<FakeTriangle>>
    decreases |s.ring|, 0
  {
    var step := VertexRemoval(vs, s, v);
    match step.result
    case Err(e) => Err(e)
    case Ok(t) =>
      RemovalShrinksRing(vs, s, v);
      Prepend([t], Clipped(vs, step.state))
  }

  // ---------------------------------------------------------------------
  // Lemmas

  /** Dropping position i shifts every later element down by one. */
  lemma DropAtIndexing(ring: seq<nat>, i: nat)
    requires i < |ring|
    ensures |ring[..i] + ring[i + 1..]| == |ring| - 1
    ensures forall k :: 0 <= k < |ring| - 1 ==>
      (ring[..i] + ring[i + 1..])[k] == if k < i then ring[k] else ring[k + 1]
  {
  }

  /** Dropping position i of a duplicate-free ring removes exactly ring[i]
      and leaves the ring duplicate-free. */
  lemma DropAtProperties(ring: seq<nat>, i: nat)
    requires NoDuplicates(ring) && i < |ring|
    ensures NoDuplicates(ring[..i] + ring[i + 1..])
    ensures forall x :: x in ring[..i] + ring[i + 1..] <==> x in ring && x != ring[i]
  {
    var r := ring[..i] + ring[i + 1..];
    DropAtIndexing(ring, i);
    forall j, k | 0 <= j < k < |r|
      ensures r[j] != r[k]
    {
      var j', k' := if j < i then j else j + 1, if k < i then k else k + 1;
      assert r[j] == ring[j'] && r[k] == ring[k'] && j' < k';
    }
    forall x
      ensures x in r <==> x in ring && x != ring[i]
    {
      if x in ring && x != ring[i] {
        var k :| 0 <= k < |ring| && ring[k] == x;
        assert r[if k < i then k else k - 1] == x;
      }
      if x in r {
        var k :| 0 <= k < |r| && r[k] == x;
        var k' := if k < i then k else k + 1;
        assert ring[k'] == x && k' != i;
      }
    }
  }

  /** Erasing a present vertex from a duplicate-free ring removes exactly that
      vertex and keeps the survivors in order and duplicate-free. */
  lemma EraseFirstProperties(ring: seq<nat>, v: nat)
    requires NoDuplicates(ring) && v in ring
    ensures var i := IndexOf(ring, v);
      EraseFirst(ring, v) == ring[..i] + ring[i + 1..]
    ensures |EraseFirst(ring, v)| == |ring| - 1
    ensures NoDuplicates(EraseFirst(ring, v))
    ensures forall x :: x in EraseFirst(ring, v) <==> x in ring && x != v
    ensures IndexOf(ring, v) < |ring| - 1 ==> EraseFirst(ring, v)[|ring| - 2] == ring[|ring| - 1]
  {
    var i := IndexOf(ring, v);
    assert EraseFirst(ring, v) == ring[..i] + ring[i + 1..];
    DropAtIndexing(ring, i);
    DropAtProperties(ring, i);
    assert ring[i] == v;
  }

  /** The loop's convex and reflex sets hold exactly the visited vertices
      whose initial triangle turns left, respectively right. */
  lemma {:induction false} ClassifiedMembers(vs: seq<Vec2>, k: nat)
    ensures forall v: nat :: v in ConvexBelow(vs, k) <==> v < k && SeedConvex(vs, v)
    ensures forall v: nat :: v in ReflexBelow(vs, k) <==> v < k && SeedReflex(vs, v)
  {
    if k > 0 {
      ClassifiedMembers(vs, k - 1);
    }
  }

  /** Looking vertex v up in the initial ring finds it at position v, so
      its neighbour triangle there is the seed triangle. */
  lemma InitialRingTriangle(vs: seq<Vec2>, v: nat)
    requires v < |vs|
    ensures RealTriangleIn(vs, Iota(|vs|), v) == Ok(SeedTriangle(vs, v))
  {
    var ring := Iota(|vs|);
    var i := IndexOf(ring, v);
    assert ring[v] == v;
    assert ring[i] == i;
  }

  /** In a duplicate-free ring the last element's triangle is degenerate. */
  lemma LastTriangleDegenerate(vs: seq<Vec2>, ring: seq<nat>)
    requires NoDuplicates(ring) && |ring| > 0
    requires forall x :: x in ring ==> x < |vs|
    ensures RealTriangleIn(vs, ring, ring[|ring| - 1]).Ok?
    ensures TriangleDet(RealTriangleIn(vs, ring, ring[|ring| - 1]).value) == 0.0
  {
    var last := ring[|ring| - 1];
    assert IndexOf(ring, last) == |ring| - 1;
  }

  /** A ring vertex always has a neighbour triangle. */
  lemma RingTriangleExists(vs: seq<Vec2>, ring: seq<nat>, v: nat)
    requires v in ring
    requires forall x :: x in ring ==> x < |vs|
    ensures RealTriangleIn(vs, ring, v).Ok?
  {
  }

  /** The cached answers of is_convex, is_reflex and is_ear (with the
      pre-test) are yes without any geometry. */
  lemma CachedAnswers(vs: seq<Vec2>, s: PolygonState, v: nat)
    ensures v in s.convex ==> ConvexityOf(vs, s, v) == Ok(true)
    ensures v in s.reflex ==> ReflexityOf(vs, s, v) == Ok(true)
    ensures v in s.ears ==> EarnessOf(vs, s, v, true) == Ok(true)
  {
  }

  /** Recomputed from geometry, a vertex in neither set is never reported both
      convex and reflex. */
  lemma FreshClassificationExclusive(vs: seq<Vec2>, s: PolygonState, v: nat)
    requires v !in s.convex && v !in s.reflex
    ensures !(ConvexityOf(vs, s, v) == Ok(true) && ReflexityOf(vs, s, v) == Ok(true))
  {
    if RealTriangleIn(vs, s.ring, v).Ok? {
      ConvexReflexExclusive(RealTriangleIn(vs, s.ring, v).value);
    }
  }

  /** For a ring vertex of a valid state the full ear test never throws, and
      says yes exactly when no reflex vertex lies inside or on the vertex's
      neighbour triangle. */
  lemma EarTestMeaning(vs: seq<Vec2>, s: PolygonState, v: nat)
    requires ValidState(vs, s) && v in s.ring
    ensures RealTriangleIn(vs, s.ring, v).Ok?
    ensures EarnessOf(vs, s, v, false).Ok?
    ensures EarnessOf(vs, s, v, false).value <==>
      forall x :: x in s.reflex ==> !PointInTriangle(RealTriangleIn(vs, s.ring, v).value, vs[x])
  {
    RingTriangleExists(vs, s.ring, v);
  }

  /** A vertex one of whose neighbours is reflex is never an ear, because
      corners count as inside. */
  lemma ReflexNeighbourBlocksEar(vs: seq<Vec2>, s: PolygonState, v: nat)
    requires ValidState(vs, s) && v in s.ring
    requires var t := BuildTriangleAtElement(s.ring, v).value; t.A in s.reflex || t.C in s.reflex
    ensures EarnessOf(vs, s, v, false) == Ok(false)
  {
    var t := BuildTriangleAtElement(s.ring, v).value;
    var points := RealTriangleIn(vs, s.ring, v).value;
    CornersAreInside(points);
    if t.A in s.reflex {
      assert PointInTriangle(points, vs[t.A]);
    } else {
      assert PointInTriangle(points, vs[t.C]);
    }
  }

  /** update_vertex_convexity: on a yes v becomes convex and not reflex; on a
      no or a throw nothing changes. The ring and the ears never change. */
  lemma ConvexityUpdateEffect(vs: seq<Vec2>, s: PolygonState, v: nat)
    ensures var st := ConvexityUpdate(vs, s, v);
      && st.state.ring == s.ring && st.state.ears == s.ears
      && (st.result == Ok(true) ==> v in st.state.convex && v !in st.state.reflex)
      && (st.result != Ok(true) ==> st.state == s)
      && st.result.Ok? == ConvexityOf(vs, s, v).Ok?
  {
  }

  /** update_vertex_earness: afterwards v is an ear exactly when the full ear
      test says so; a throw changes nothing. */
  lemma EarnessUpdateEffect(vs: seq<Vec2>, s: PolygonState, v: nat)
    ensures var st := EarnessUpdate(vs, s, v);
      && st.state.ring == s.ring && st.state.convex == s.convex && st.state.reflex == s.reflex
      && (st.result.Ok? ==> (v in st.state.ears <==> EarnessOf(vs, s, v, false) == Ok(true)))
      && (st.result.Err? ==> st.state == s)
  {
  }

  /** update_vertex changes the sets of v alone and never the ring. */
  lemma VertexUpdateFrame(vs: seq<Vec2>, s: PolygonState, v: nat)
    ensures VertexUpdate(vs, s, v).state.ring == s.ring
    ensures forall x :: x != v ==> AgreeOn(s, VertexUpdate(vs, s, v).state, x)
  {
  }

  /** update_vertex never takes a vertex out of the convex set and never puts
      one into the reflex set, so after removals the two sets can differ
      from a fresh classification. */
  lemma VertexUpdateMonotone(vs: seq<Vec2>, s: PolygonState, v: nat)
    ensures s.convex <= VertexUpdate(vs, s, v).state.convex
    ensures VertexUpdate(vs, s, v).state.reflex <= s.reflex
  {
  }

  /** update_vertex keeps the invariant and, for a ring vertex, never throws. */
  lemma VertexUpdateKeepsValid(vs: seq<Vec2>, s: PolygonState, v: nat)
    requires ValidState(vs, s)
    ensures ValidState(vs, VertexUpdate(vs, s, v).state)
    ensures v in s.ring ==> VertexUpdate(vs, s, v).result.Ok?
  {
    var c := ConvexityUpdate(vs, s, v);
    if c.result == Ok(true) && v !in s.convex {
      assert RealTriangleIn(vs, s.ring, v).Ok?;
      assert v in s.ring;
    }
    if v in s.ring {
      RingTriangleExists(vs, s.ring, v);
    }
  }

  /** The pinned last vertex is never found convex, so updating it changes nothing. */
  lemma PinnedLastUpdateIsNoop(vs: seq<Vec2>, s: PolygonState)
    requires ValidState(vs, s) && LastPinned(vs, s) && |vs| > 0
    ensures ConvexityOf(vs, s, |vs| - 1) == Ok(false)
    ensures VertexUpdate(vs, s, |vs| - 1) == Step(s, Ok(()))
  {
    LastTriangleDegenerate(vs, s.ring);
  }

  /** remove_vertex as its three stages: erase, update A, update C. */
  lemma RemovalSteps(vs: seq<Vec2>, s: PolygonState, v: nat)
    requires v in s.ring
    ensures var abc := BuildTriangleAtElement(s.ring, v).value;
      var erased := PolygonState(EraseFirst(s.ring, v), s.convex - {v}, s.reflex - {v}, s.ears - {v});
      var a := VertexUpdate(vs, erased, abc.A);
      var c := VertexUpdate(vs, a.state, abc.C);
      VertexRemoval(vs, s, v) ==
        if a.result.Err? then Step(a.state, Err(a.result.error))
        else if c.result.Err? then Step(c.state, Err(c.result.error))
        else Step(c.state, Ok(abc))
  {
  }

  /** A successful remove_vertex shrinks the ring by one. */
  lemma RemovalShrinksRing(vs: seq<Vec2>, s: PolygonState, v: nat)
    ensures var st := VertexRemoval(vs, s, v);
      st.result.Ok? ==> st.state.ring == EraseFirst(s.ring, v) && |st.state.ring| == |s.ring| - 1
  {
    var st := VertexRemoval(vs, s, v);
    if st.result.Ok? {
      var abc := BuildTriangleAtElement(s.ring, v).value;
      var erased := PolygonState(EraseFirst(s.ring, v), s.convex - {v}, s.reflex - {v}, s.ears - {v});
      VertexUpdateFrame(vs, erased, abc.A);
      VertexUpdateFrame(vs, VertexUpdate(vs, erased, abc.A).state, abc.C);
    }
  }

  /** remove_vertex leaves every vertex other than v and its two neighbours
      in the sets it was in, whether or not it throws, and v is in no set. */
  lemma RemovalFrame(vs: seq<Vec2>, s: PolygonState, v: nat)
    requires v in s.ring
    ensures var abc := BuildTriangleAtElement(s.ring, v).value;
      var st := VertexRemoval(vs, s, v);
      forall x :: x != v && x != abc.A && x != abc.C ==> AgreeOn(s, st.state, x)
  {
    var abc := BuildTriangleAtElement(s.ring, v).value;
    var erased := PolygonState(EraseFirst(s.ring, v), s.convex - {v}, s.reflex - {v}, s.ears - {v});
    var a := VertexUpdate(vs, erased, abc.A);
    var c := VertexUpdate(vs, a.state, abc.C);
    RemovalSteps(vs, s, v);
    VertexUpdateFrame(vs, erased, abc.A);
    VertexUpdateFrame(vs, a.state, abc.C);
    forall x | x != v && x != abc.A && x != abc.C
      ensures AgreeOn(s, VertexRemoval(vs, s, v).state, x)
    {
      assert AgreeOn(s, erased, x);
      assert AgreeOn(erased, a.state, x);
      assert AgreeOn(a.state, c.state, x);
    }
  }

  /** remove_vertex keeps the invariant, whether or not it throws. */
  lemma RemovalKeepsValid(vs: seq<Vec2>, s: PolygonState, v: nat)
    requires ValidState(vs, s)
    ensures ValidState(vs, VertexRemoval(vs, s, v).state)
  {
    if v in s.ring {
      var abc := BuildTriangleAtElement(s.ring, v).value;
      var erased := PolygonState(EraseFirst(s.ring, v), s.convex - {v}, s.reflex - {v}, s.ears - {v});
      EraseFirstProperties(s.ring, v);
      assert ValidState(vs, erased);
      VertexUpdateKeepsValid(vs, erased, abc.A);
      VertexUpdateKeepsValid(vs, VertexUpdate(vs, erased, abc.A).state, abc.C);
    }
  }

  /** Updating a ring vertex of a valid pinned state never throws and keeps
      the invariant, the pinned last vertex and the ring. */
  lemma PinnedUpdate(vs: seq<Vec2>, s: PolygonState, x: nat)
    requires ValidState(vs, s) && LastPinned(vs, s) && x in s.ring
    ensures var st := VertexUpdate(vs, s, x);
      && st.result.Ok? && ValidState(vs, st.state) && LastPinned(vs, st.state)
      && st.state.ring == s.ring
      && forall y :: y != x ==> AgreeOn(s, st.state, y)
  {
    VertexUpdateKeepsValid(vs, s, x);
    VertexUpdateFrame(vs, s, x);
    if x == |vs| - 1 {
      PinnedLastUpdateIsNoop(vs, s);
    } else if |vs| > 0 {
      assert AgreeOn(s, VertexUpdate(vs, s, x).state, |vs| - 1);
    }
  }

  /** Erasing a ring vertex other than the pinned last one keeps the
      invariant and the pinned last vertex; its neighbours survive, and are
      distinct from each other when the ring had three vertices or more. */
  lemma ErasurePinned(vs: seq<Vec2>, s: PolygonState, v: nat)
    requires ValidState(vs, s) && LastPinned(vs, s)
    requires v in s.ring && v != |vs| - 1
    ensures var abc := BuildTriangleAtElement(s.ring, v).value;
      var erased := PolygonState(EraseFirst(s.ring, v), s.convex - {v}, s.reflex - {v}, s.ears - {v});
      && ValidState(vs, erased) && LastPinned(vs, erased)
      && |erased.ring| == |s.ring| - 1 && v !in erased.ring
      && abc.A in erased.ring && abc.C in erased.ring
      && (|s.ring| >= 3 ==> abc.A != abc.C)
  {
    var i := IndexOf(s.ring, v);
    var abc := BuildTriangleAtElement(s.ring, v).value;
    EraseFirstProperties(s.ring, v);
    assert i < |s.ring| - 1;
    if |s.ring| >= 3 {
      InteriorNeighboursDistinct(s.ring, i);
    } else {
      assert i == 0;
    }
    assert abc.A != v && abc.C != v;
  }

  /** Removing any ring vertex but the pinned last one never throws, keeps
      the invariant and the pinned last vertex, returns v's neighbour
      triangle and leaves v out of the ring and the sets. */
  lemma RemovalFromPinned(vs: seq<Vec2>, s: PolygonState, v: nat)
    requires ValidState(vs, s) && LastPinned(vs, s)
    requires v in s.ring && v != |vs| - 1
    ensures var st := VertexRemoval(vs, s, v);
      && st.result.Ok?
      && ValidState(vs, st.state) && LastPinned(vs, st.state)
      && st.state.ring == EraseFirst(s.ring, v)
      && |st.state.ring| == |s.ring| - 1
      && v !in st.state.ring
      && v !in st.state.convex && v !in st.state.reflex && v !in st.state.ears
      && st.result.value.B == v
      && st.result.value.A in st.state.ring && st.result.value.C in st.state.ring
      && (|s.ring| >= 3 ==> st.result.value.A != st.result.value.C)
  {
    var abc := BuildTriangleAtElement(s.ring, v).value;
    var erased := PolygonState(EraseFirst(s.ring, v), s.convex - {v}, s.reflex - {v}, s.ears - {v});
    ErasurePinned(vs, s, v);
    var a := VertexUpdate(vs, erased, abc.A);
    PinnedUpdate(vs, erased, abc.A);
    var c := VertexUpdate(vs, a.state, abc.C);
    PinnedUpdate(vs, a.state, abc.C);
    RemovalSteps(vs, s, v);
    assert VertexRemoval(vs, s, v) == Step(c.state, Ok(abc));
    assert AgreeOn(erased, a.state, v) && AgreeOn(a.state, c.state, v);
  }

  /** The state after classification satisfies the invariant and pins the
      last vertex. */
  lemma ClassifiedWellFormed(vs: seq<Vec2>)
    ensures ValidState(vs, Classified(vs)) && LastPinned(vs, Classified(vs))
    ensures InitialConvex(vs) !! InitialReflex(vs)
  {
    ClassifiedMembers(vs, |vs|);
    forall x | x in InitialConvex(vs) ensures x !in InitialReflex(vs) {
      ConvexReflexExclusive(SeedTriangle(vs, x));
    }
    forall x: nat | x < |vs| ensures x in Iota(|vs|) {
      assert Iota(|vs|)[x] == x;
    }
    if |vs| > 0 {
      var last := |vs| - 1;
      DetOfCoincidentCorners(SeedTriangle(vs, last).A, SeedTriangle(vs, last).B, SeedTriangle(vs, last).C);
      assert Iota(|vs|)[last] == last;
    }
  }

  /** Visiting one more candidate v of a scan that collects the members of
      all: the collected set grows by v exactly when v belongs to all. */
  lemma ScanStep(all: set<nat>, todo: set<nat>, done: set<nat>, v: nat)
    requires done == all - todo && v in todo
    ensures (if v in all then done + {v} else done) == all - (todo - {v})
  {
  }

  /** The full ear test of every convex vertex of s says yes exactly for
      the members of ears. */
  ghost predicate EarsAnswered(vs: seq<Vec2>, s: PolygonState, ears: set<nat>) {
    forall v {:trigger EarnessOf(vs, s, v, false)} ::
      v in s.convex ==> EarnessOf(vs, s, v, false) == Ok(v in ears)
  }

  /** After classification the full ear test of a convex vertex answers
      whether it is an initial ear. */
  lemma InitialEarTests(vs: seq<Vec2>)
    ensures EarsAnswered(vs, Classified(vs), InitialEars(vs))
  {
    ClassifiedMembers(vs, |vs|);
    forall v | v in InitialConvex(vs)
      ensures EarnessOf(vs, Classified(vs), v, false) == Ok(v in InitialEars(vs))
    {
      InitialRingTriangle(vs, v);
    }
  }

  /** Any subset of the convex set may serve as the ear set. */
  lemma FewerEarsKeepValid(vs: seq<Vec2>, s: PolygonState, ears: set<nat>)
    requires ValidState(vs, s) && LastPinned(vs, s) && ears <= s.convex
    ensures ValidState(vs, s.(ears := ears)) && LastPinned(vs, s.(ears := ears))
  {
  }

  /** The constructor's state satisfies the invariant and pins the last vertex. */
  lemma SeededWellFormed(vs: seq<Vec2>)
    ensures ValidState(vs, Seeded(vs)) && LastPinned(vs, Seeded(vs))
    ensures InitialEars(vs) <= InitialConvex(vs)
    ensures InitialConvex(vs) !! InitialReflex(vs)
  {
    ClassifiedWellFormed(vs);
    FewerEarsKeepValid(vs, Classified(vs), InitialEars(vs));
    assert Classified(vs).(ears := InitialEars(vs)) == Seeded(vs);
  }

  // ---------------------------------------------------------------------
  // The cached ear set stays exact

  /** The cached ear set agrees with the full ear test on every convex vertex
      outside pending. */
  ghost predicate EarsExactExcept(vs: seq<Vec2>, s: PolygonState, pending: set<nat>) {
    forall x {:trigger EarnessOf(vs, s, x, false)} ::
      x in s.convex && x !in pending ==> EarnessOf(vs, s, x, false) == Ok(x in s.ears)
  }

  /** The cached ear set is exactly the set of convex vertices that pass the
      full ear test. */
  ghost predicate EarsExact(vs: seq<Vec2>, s: PolygonState) {
    EarsExactExcept(vs, s, {})
  }

  /** The full ear test of x reads x's neighbour triangle and the reflex set only. */
  lemma EarTestReadsTriangleAndReflex(vs: seq<Vec2>, s: PolygonState, t: PolygonState, x: nat)
    requires BuildTriangleAtElement(s.ring, x) == BuildTriangleAtElement(t.ring, x)
    requires s.reflex == t.reflex
    ensures EarnessOf(vs, s, x, false) == EarnessOf(vs, t, x, false)
  {
  }

  /** In a duplicate-free sequence an element found at k is first found at k. */
  lemma IndexOfUnique(r: seq<nat>, x: nat, k: nat)
    requires NoDuplicates(r) && k < |r| && r[k] == x
    ensures IndexOf(r, x) == k
  {
    assert x in r;
  }

  /** Erasing v leaves the neighbour triangle of every survivor other than
      v's own neighbours as it was. */
  lemma SurvivorTriangleUnchanged(ring: seq<nat>, v: nat, x: nat)
    requires NoDuplicates(ring) && v in ring && IndexOf(ring, v) < |ring| - 1
    requires x in ring && x != v
    requires var abc := BuildTriangleAtElement(ring, v).value; x != abc.A && x != abc.C
    ensures BuildTriangleAtElement(EraseFirst(ring, v), x) == BuildTriangleAtElement(ring, x)
  {
    var i := IndexOf(ring, v);
    var j := IndexOf(ring, x);
    var erased := EraseFirst(ring, v);
    EraseFirstProperties(ring, v);
    var j' := if j < i then j else j - 1;
    DropKeepsTriangle(ring, i, j);
    IndexOfUnique(erased, x, j');
  }

  /** Dropping position i of a ring leaves the triangle at any position j
      other than i and its two neighbours' positions as it was, at its
      shifted position. */
  lemma DropKeepsTriangle(ring: seq<nat>, i: nat, j: nat)
    requires i < |ring| - 1 && j < |ring| && j != i && j != i + 1
    requires j != if i > 0 then i - 1 else |ring| - 1
    ensures var j' := if j < i then j else j - 1;
      && j' < |ring| - 1
      && (ring[..i] + ring[i + 1..])[j'] == ring[j]
      && BuildTriangleAtIndex(ring[..i] + ring[i + 1..], j') == BuildTriangleAtIndex(ring, j)
  {
    DropAtIndexing(ring, i);
  }

  /** update_vertex of a ring vertex y that is not reflex settles y: the
      cached ear set, exact outside pending before, is exact outside
      pending - {y} after, and the ring and the reflex set stay as they were. */
  lemma UpdateSettlesExact(vs: seq<Vec2>, s: PolygonState, y: nat, pending: set<nat>)
    requires ValidState(vs, s) && y in s.ring && y !in s.reflex
    requires EarsExactExcept(vs, s, pending)
    ensures var t := VertexUpdate(vs, s, y).state;
      && t.ring == s.ring && t.reflex == s.reflex
      && EarsExactExcept(vs, t, pending - {y})
  {
    var t := VertexUpdate(vs, s, y).state;
    var c := ConvexityUpdate(vs, s, y);
    VertexUpdateFrame(vs, s, y);
    VertexUpdateKeepsValid(vs, s, y);
    RingTriangleExists(vs, s.ring, y);
    assert t.reflex == s.reflex;
    forall x | x in t.convex && x !in pending - {y}
      ensures EarnessOf(vs, t, x, false) == Ok(x in t.ears)
    {
      EarTestReadsTriangleAndReflex(vs, s, t, x);
      if x == y {
        assert c.result == Ok(true);
        EarTestReadsTriangleAndReflex(vs, c.state, t, x);
        EarnessUpdateEffect(vs, c.state, y);
      } else {
        assert AgreeOn(s, t, x);
      }
    }
  }

  /** The constructor leaves the cached ear set exact. */
  lemma SeededEarsExact(vs: seq<Vec2>)
    ensures EarsExact(vs, Seeded(vs))
  {
    InitialEarTests(vs);
    forall x | x in Seeded(vs).convex
      ensures EarnessOf(vs, Seeded(vs), x, false) == Ok(x in Seeded(vs).ears)
    {
      EarTestReadsTriangleAndReflex(vs, Classified(vs), Seeded(vs), x);
    }
  }

  /** Erasing an ear keeps the cached ear set exact on every survivor except
      the ear's two neighbours, which are not reflex. */
  lemma ErasureKeepsEarsExact(vs: seq<Vec2>, s: PolygonState, v: nat)
    requires ValidState(vs, s) && LastPinned(vs, s) && EarsExact(vs, s)
    requires v in s.ears
    ensures var abc := BuildTriangleAtElement(s.ring, v).value;
      var erased := PolygonState(EraseFirst(s.ring, v), s.convex - {v}, s.reflex - {v}, s.ears - {v});
      && abc.A !in s.reflex && abc.C !in s.reflex
      && erased.reflex == s.reflex
      && EarsExactExcept(vs, erased, {abc.A, abc.C})
  {
    var abc := BuildTriangleAtElement(s.ring, v).value;
    var erased := PolygonState(EraseFirst(s.ring, v), s.convex - {v}, s.reflex - {v}, s.ears - {v});
    assert EarnessOf(vs, s, v, false) == Ok(true);
    assert abc.A !in s.reflex && abc.C !in s.reflex by {
      if abc.A in s.reflex || abc.C in s.reflex {
        ReflexNeighbourBlocksEar(vs, s, v);
      }
    }
    assert IndexOf(s.ring, v) < |s.ring| - 1;
    forall x | x in erased.convex && x !in {abc.A, abc.C}
      ensures EarnessOf(vs, erased, x, false) == Ok(x in erased.ears)
    {
      assert x in s.convex && x != v;
      SurvivorTriangleUnchanged(s.ring, v, x);
      EarTestReadsTriangleAndReflex(vs, erased, s, x);
    }
  }

  /** Removing an ear and reclassifying only its two neighbours keeps the
      cached ear set exact: the neighbours of an ear are never reflex, so the
      reflex set does not change, and every other survivor keeps its
      neighbour triangle. */
  lemma RemovalKeepsEarsExact(vs: seq<Vec2>, s: PolygonState, v: nat)
    requires ValidState(vs, s) && LastPinned(vs, s) && EarsExact(vs, s)
    requires v in s.ears
    ensures var st := VertexRemoval(vs, s, v);
      && st.result.Ok?
      && st.state.reflex == s.reflex
      && EarsExact(vs, st.state)
  {
    var abc := BuildTriangleAtElement(s.ring, v).value;
    var erased := PolygonState(EraseFirst(s.ring, v), s.convex - {v}, s.reflex - {v}, s.ears - {v});
    var pending := {abc.A, abc.C};
    ErasureKeepsEarsExact(vs, s, v);
    ErasurePinned(vs, s, v);
    var a := VertexUpdate(vs, erased, abc.A);
    UpdateSettlesExact(vs, erased, abc.A, pending);
    PinnedUpdate(vs, erased, abc.A);
    var c := VertexUpdate(vs, a.state, abc.C);
    UpdateSettlesExact(vs, a.state, abc.C, pending - {abc.A});
    assert pending - {abc.A} - {abc.C} == {};
    RemovalSteps(vs, s, v);
    VertexUpdateKeepsValid(vs, a.state, abc.C);
    assert VertexRemoval(vs, s, v) == Step(c.state, Ok(abc));
  }

  /** One round of the driver as a whole: with more than two vertices and an
      ear, remove the smallest ear and either pass its throw on or record its
      triangle before the rest. */
  lemma ClippedRound(vs: seq<Vec2>, s: PolygonState)
    requires |s.ring| > 2 && s.ears != {}
    ensures var st := VertexRemoval(vs, s, SetMin(s.ears));
      Clipped(vs, s) == if st.result.Err? then Err(st.result.error)
                        else Prepend([st.result.value], Clipped(vs, st.state))
  {
    assert Clipped(vs, s) == ClipEar(vs, s, SetMin(s.ears));
  }

  /** Recording a prefix and then a further triangle is recording both. */
  lemma PrependAppend<T>(prefix: seq<T>, t: T, r: Result<seq<T>>)
    ensures Prepend(prefix, Prepend([t], r)) == Prepend(prefix + [t], r)
  {
    if r.Ok? {
      assert prefix + ([t] + r.value) == (prefix + [t]) + r.value;
    }
  }

  /** One round of the driver from a valid pinned state with an ear: the
      smallest ear t.B is clipped without a throw, leaving state next. When
      the cached ear set is exact, t.B passes the full ear test, the reflex
      set stays as it was and the ear set stays exact. */
  lemma ClippedStep(vs: seq<Vec2>, s: PolygonState) returns (t: FakeTriangle, next: PolygonState)
    requires ValidState(vs, s) && LastPinned(vs, s)
    requires |s.ring| > 2 && s.ears != {}
    ensures ValidState(vs, next) && LastPinned(vs, next)
    ensures |next.ring| == |s.ring| - 1
    ensures forall x :: x in next.ring <==> x in s.ring && x != t.B
    ensures t.B == SetMin(s.ears) && t.A in next.ring && t.C in next.ring && t.A != t.C
    ensures VertexRemoval(vs, s, SetMin(s.ears)) == Step(next, Ok(t))
    ensures Clipped(vs, s) == Prepend([t], Clipped(vs, next))
    ensures EarsExact(vs, s) ==>
      && EarnessOf(vs, s, t.B, false) == Ok(true)
      && next.reflex == s.reflex
      && EarsExact(vs, next)
  {
    var v := SetMin(s.ears);
    RemovalFromPinned(vs, s, v);
    if EarsExact(vs, s) {
      RemovalKeepsEarsExact(vs, s, v);
    }
    EraseFirstProperties(s.ring, v);
    ClippedRound(vs, s);
    var st := VertexRemoval(vs, s, v);
    t, next := st.result.value, st.state;
  }

  /** A duplicate-free ring of ids below n has at most n elements. */
  lemma {:induction false} RingFitsIds(ring: seq<nat>, n: nat)
    requires NoDuplicates(ring)
    requires forall x :: x in ring ==> x < n
    ensures |ring| <= n
    decreases n
  {
    if |ring| > 0 {
      assert n > 0 by {
        assert ring[0] in ring;
      }
      if n - 1 in ring {
        var i := IndexOf(ring, n - 1);
        var rest := ring[..i] + ring[i + 1..];
        DropAtIndexing(ring, i);
        DropAtProperties(ring, i);
        forall x | x in rest
          ensures x < n - 1
        {
          assert x in ring && x != ring[i];
        }
        RingFitsIds(rest, n - 1);
      } else {
        RingFitsIds(ring, n - 1);
      }
    }
  }

  /** The ring of a valid state never holds more ids than there are points. */
  lemma ValidRingFits(vs: seq<Vec2>, s: PolygonState)
    ensures ValidState(vs, s) ==> |s.ring| <= |vs|
  {
    if ValidState(vs, s) {
      RingFitsIds(s.ring, |vs|);
    }
  }

  /** t's corners are three distinct ring vertices and its clipped vertex B
      is not the pinned last vertex. */
  ghost predicate ProperEar(vs: seq<Vec2>, ring: seq<nat>, t: FakeTriangle) {
    && t.A in ring && t.B in ring && t.C in ring
    && t.A != t.B && t.B != t.C && t.A != t.C
    && t.B != |vs| - 1
  }

  /** No vertex is clipped twice. */
  ghost predicate DistinctClipped(ts: seq<FakeTriangle>) {
    forall j, k :: 0 <= j < k < |ts| ==> ts[j].B != ts[k].B
  }

  /** The outcome the driver promises from a ring: a non-simple failure with
      more than two vertices left, or all but two vertices clipped as proper
      ears, none twice. */
  ghost predicate ClipShape(vs: seq<Vec2>, ring: seq<nat>, r: Result<seq<FakeTriangle>>) {
    && (r.Err? ==> r.error == NonSimplePolygon && |ring| > 2)
    && (r.Ok? ==> |r.value| == if |ring| > 2 then |ring| - 2 else 0)
    && (r.Ok? ==> forall k :: 0 <= k < |r.value| ==> ProperEar(vs, ring, r.value[k]))
    && (r.Ok? ==> DistinctClipped(r.value))
  }

  /** Clipping the proper ear t from a ring of three or more, then clipping
      what is left as promised, clips the whole ring as promised. */
  lemma PrependEar(vs: seq<Vec2>, ring: seq<nat>, rest: seq<nat>, t: FakeTriangle,
                   r: Result<seq<FakeTriangle>>, whole: Result<seq<FakeTriangle>>)
    requires |ring| > 2 && |rest| == |ring| - 1
    requires ProperEar(vs, ring, t)
    requires forall x :: x in rest <==> x in ring && x != t.B
    requires ClipShape(vs, rest, r) && whole == Prepend([t], r)
    ensures ClipShape(vs, ring, whole)
  {
    if r.Ok? {
      var ts := r.value;
      var all := [t] + ts;
      forall k | 0 <= k < |all|
        ensures ProperEar(vs, ring, all[k])
      {
        if k > 0 {
          assert all[k] == ts[k - 1];
          assert ProperEar(vs, rest, ts[k - 1]);
        }
      }
      forall j, k | 0 <= j < k < |all|
        ensures all[j].B != all[k].B
      {
        assert all[k] == ts[k - 1];
        assert ProperEar(vs, rest, ts[k - 1]);
        if j > 0 { assert all[j] == ts[j - 1]; }
      }
    }
  }

  /** triangulate from a valid pinned state either fails as non-simple with
      more than two vertices left, or clips all but two of the ring's
      vertices; the clipped ids are distinct ring vertices other than the
      pinned last one, and each triangle has three distinct ring corners. */
  lemma {:induction false} ClippedShape(vs: seq<Vec2>, s: PolygonState)
    requires ValidState(vs, s) && LastPinned(vs, s)
    decreases |s.ring|
    ensures ClipShape(vs, s.ring, Clipped(vs, s))
  {
    if |s.ring| > 2 && s.ears != {} {
      var t, next := ClippedStep(vs, s);
      ClippedShape(vs, next);
      PrependEar(vs, s.ring, next.ring, t, Clipped(vs, next), Clipped(vs, s));
    }
  }

  /** A four-vertex polygon whose vertex 0 is flat, vertex 1 reflex and
      vertex 2 convex has vertex 2 as its only ear candidate, and vertex 1,
      corner A of vertex 2's triangle, rules it out: the ear set starts
      empty and the driver fails as non-simple. */
  lemma QuadrilateralWithoutEar(vs: seq<Vec2>, p0: Vec2, p1: Vec2, p2: Vec2, p3: Vec2)
    requires vs == [p0, p1, p2, p3]
    requires Det(p3, p0, p1) == 0.0 && Det(p0, p1, p2) < 0.0 && Det(p1, p2, p3) > 0.0
    ensures InitialConvex(vs) == {2} && InitialReflex(vs) == {1}
    ensures InitialEars(vs) == {}
    ensures Clipped(vs, Seeded(vs)) == Err(NonSimplePolygon)
  {
    assert SeedTriangle(vs, 0) == Triangle(p3, p0, p1);
    assert SeedTriangle(vs, 1) == Triangle(p0, p1, p2);
    assert SeedTriangle(vs, 2) == Triangle(p1, p2, p3);
    assert SeedTriangle(vs, 3) == Triangle(p2, p3, p3);
    DetOfCoincidentCorners(p2, p3, p3);
    ClassifiedMembers(vs, 4);
    assert InitialConvex(vs) == {2} by {
      forall v: nat ensures v in InitialConvex(vs) <==> v == 2 {
        if v < 4 { assert v == 0 || v == 1 || v == 2 || v == 3; }
      }
    }
    assert InitialReflex(vs) == {1} by {
      forall v: nat ensures v in InitialReflex(vs) <==> v == 1 {
        if v < 4 { assert v == 0 || v == 1 || v == 2 || v == 3; }
      }
    }
    CornersAreInside(Triangle(p1, p2, p3));
    assert InitialEars(vs) == {};
    assert |Seeded(vs).ring| == 4;
  }
}
