# Ear-clipping triangulator, modelled in Dafny

This project models a small C++ ear-clipping triangulator (`triangulation.cpp` and `geom.hpp`).

The triangulator keeps a `polygon` object with four fields:

- the ring of surviving vertex ids (`vertex_list`, a vector erased in place);
- three ordered sets of ids: `convex_list`, `reflex_list` and `ear_list`.

The constructor works in three steps:

1. it seeds the ring with `0 .. n-1`;
2. it classifies every vertex by the sign of its neighbour triangle's determinant;
3. it tests every convex vertex for earness.

`triangulate` then repeatedly removes the smallest ear and records that ear's triangle. Removing an ear reclassifies only the two neighbours of the removed vertex. When the ring still has more than two vertices but no ear is left, it throws "non-simple".

The model has four modules:

- `Geom` (`geom.dfy`) holds the points, the triangles and the determinant, sign and in-triangle tests. Coordinates are exact reals.
- `Neighbours` (`neighbours.dfy`) holds the helpers that build neighbour triangles, the search and minimum the triangulator borrows from the standard library, and the failure kinds. There is one `Error` constructor per `throw` site. A thrown exception becomes an `Err` result.
- `Tracker` (`tracker.dfy`) holds the polygon's fields as a value (`PolygonState`). It has one function per operation that reads or changes them:
  - each changing operation returns a `Step`, the state reached and the result, so a throw part-way through `remove_vertex` leaves the changes made so far, as in C++;
  - `Seeded` is the state the constructor builds;
  - `Clipped` is what `triangulate` returns from a given state.

  The module also holds the properties proved about these functions.
- `Polygons` (`polygon.dfy`) holds the class `Polygon`, whose fields are those of the C++ class, and the `triangulate` driver. Every method that changes the object is proved to produce the new state and result that the matching `Tracker` function gives. Every loop (the constructor's three loops, the reflex scan of `is_ear` and the driver loop) is proved against those functions through its invariants.

The neighbour helper is modelled exactly as written. `build_triangle_at_index` wraps the predecessor of index 0 round to the last element. It does not wrap the successor of the last index: there it takes the last element again, so C == B (`triangulation.cpp:18`). The model proves what follows from this:

- the last input vertex n-1 always has a flat neighbour triangle;
- so that vertex is never convex, reflex or an ear, is never removed, and stays at the end of the ring (`LastPinned`);
- every triangle `triangulate` returns clips a vertex other than n-1.

Some consequences of the code as written that a reader might not expect:

- The ring is not fully cyclic. The predecessor of the first element wraps round to the last one, but the successor of the last element is that element itself (see above).
- A ring vertex need not be convex or reflex. At construction, a vertex whose neighbour triangle is flat is in neither set.
- After construction the convex and reflex sets can drift from a fresh classification. `update_vertex_convexity` answers a cached yes for a convex vertex without looking at its new triangle, and on a no it changes nothing. So `update_vertex` never takes a vertex out of the convex set and never puts one into the reflex set (`VertexUpdateMonotone`):
  - a convex neighbour whose new triangle is flat or turns right stays convex;
  - a vertex in neither set whose new triangle turns right is never made reflex, so it never blocks an ear.
- Reclassifying only the two neighbours of a removed ear keeps the cached ear set exact: it stays the set of convex vertices that pass the full ear test (`RemovalKeepsEarsExact`). An ear's neighbours are corners of its triangle, and corners count as inside, so they are never reflex. Removing an ear therefore never changes the reflex set, which keeps its initial value for the whole run. Every other survivor keeps its neighbour triangle.
- The sample polygon of `main` throws "non-simple". `SampleHasNoEar` proves this:
  - vertex 0's triangle is flat;
  - vertex 1 is reflex;
  - vertex 2 is the only convex vertex;
  - vertex 1 is corner A of vertex 2's triangle, and the containment test counts corners as inside, so no ear exists.

  The sample is degenerate: its closing edge from (-1,0) to (2,0) passes through vertex 1 at (1,0).
- `is_ear` itself does not test convexity; it only scans the reflex set. Convexity enters through its callers: the constructor tests only convex vertices, and `update_vertex` tests only vertices it has just found convex.

## Model

| member | source | states |
|---|---|---|
| Geom.SignAndDetAreTwiceTheArea | geom.hpp:16-19 | `sign(p1,p2,p3)` and `det(p1,p2,p3)` both equal twice the signed area of the triple by the shoelace formula, hence each other |
| Geom.DetRotationAndReversal | geom.hpp:33-43 | `det` is unchanged when the corners are rotated and changes sign when their order is reversed |
| Geom.DetOfCoincidentCorners | geom.hpp:33-38 | `det` is zero whenever two corners coincide, in particular when C == B |
| Geom.ConvexReflexExclusive | geom.hpp:45-53 | `is_convex` and `is_reflex` never both hold, and both fail exactly when `det` is zero |
| Geom.ReversalSwapsConvexAndReflex | geom.hpp:45-53 | reversing a triangle's corners turns a convex triangle into a reflex one and back |
| Geom.PointInTriangleBySigns | geom.hpp:21-31 | `point_in_triangle` holds exactly when the three half-plane values are all non-negative or all non-positive |
| Geom.CornersAreInside | geom.hpp:21-31 | the containment test is inclusive: each of the three corners is inside its triangle |
| Geom.Sign | geom.hpp:16-19 | `sign(p1,p2,p3)`: the cross product of p1 - p3 and p2 - p3; its meaning is proved in SignAndDetAreTwiceTheArea |
| Geom.PointInTriangle | geom.hpp:21-31 | `point_in_triangle`: the three half-plane values are not of mixed strict signs; characterised in PointInTriangleBySigns and CornersAreInside |
| Geom.Det | geom.hpp:33-38 | `det(A,B,C)`: the cross product of AB and BC; proved equal to twice the signed area in SignAndDetAreTwiceTheArea |
| Geom.TriangleDet | geom.hpp:40-43 | `det` of a triangle is `det` of its three corners in order |
| Geom.IsConvex | geom.hpp:45-48 | a triangle is convex when its determinant is positive (see ConvexReflexExclusive) |
| Geom.IsReflex | geom.hpp:50-53 | a triangle is reflex when its determinant is negative (see ConvexReflexExclusive) |
| Neighbours.IndexOf | triangulation.cpp:28-32 | `std::find`: the position of the first occurrence, which holds the element and has no earlier occurrence, or the length when the element is absent |
| Neighbours.SetMin | triangulation.cpp:171-176 | the first element of an ordered set is a member not greater than any other member |
| Neighbours.BuildTriangleAtIndex | triangulation.cpp:9-21 | throws `out_of_range` exactly when the index is past the end; otherwise B is the element at the index, and at the last index C == B |
| Neighbours.NeighboursAreCyclic | triangulation.cpp:16-18 | A is the cyclic predecessor of B at every index; C is the cyclic successor at every index except the last |
| Neighbours.InteriorNeighboursDistinct | triangulation.cpp:14-18 | in a sequence of three or more distinct elements, the triangle at any index but the last has three distinct corners |
| Neighbours.BuildTriangleAtElement | triangulation.cpp:26-35 | throws the not-found `logic_error` exactly when the element is absent; otherwise B is the element, and A and C are members of the sequence |
| Neighbours.NeighboursOfElement | triangulation.cpp:23-35 | for an element present in the sequence, B is the element, A is the cyclic predecessor of its first position, and C is the cyclic successor there, or the element itself when that position is the last |
| Neighbours.MakeTriangleReal | triangulation.cpp:39-49 | `vector::at` throws `out_of_range` exactly when a corner id is not a valid index; otherwise each corner is the point at that id |
| Neighbours.Error.What | triangulation.cpp:253-256 | the message `main` prints for each throw: the texts at lines 12, 30, 174 and 224, and a stand-in for `vector::at`'s |
| Tracker.Iota | triangulation.cpp:63-64 | the seeded ring has n entries, and entry i is id i |
| Tracker.RealTriangleIn | triangulation.cpp:92-95 | `build_real_triangle_at` on the state's ring: v's id triangle resolved to points, passing on either helper's throw (when it cannot throw: RingTriangleExists) |
| Tracker.ConvexityOf | triangulation.cpp:97-104 | `is_convex`: a cached yes for a vertex in the convex set, else whether v's neighbour triangle is convex, passing on a throw |
| Tracker.ReflexityOf | triangulation.cpp:106-113 | `is_reflex`: a cached yes for a vertex in the reflex set, else whether v's neighbour triangle is reflex, passing on a throw |
| Tracker.EarnessOf | triangulation.cpp:115-128 | `is_ear`: with the pre-test a cached yes for a known ear, else whether no reflex vertex lies inside or on v's neighbour triangle (meaning in EarTestMeaning) |
| Tracker.ConvexityUpdate | triangulation.cpp:184-193 | `update_vertex_convexity`: on a yes, v joins the convex set and leaves the reflex set (effect in ConvexityUpdateEffect) |
| Tracker.EarnessUpdate | triangulation.cpp:195-207 | `update_vertex_earness`: v joins the ear set on a yes and leaves it on a no (effect in EarnessUpdateEffect) |
| Tracker.VertexUpdate | triangulation.cpp:130-138 | `update_vertex`: the convexity update, then the ear update only when v was found convex (frame in VertexUpdateFrame) |
| Tracker.EraseFirst | triangulation.cpp:146 | `vector::erase` at `std::find`: the ring without the first occurrence of v (properties in EraseFirstProperties) |
| Tracker.VertexRemoval | triangulation.cpp:140-164 | `remove_vertex`: build v's id triangle, erase v from the ring and the three sets, update A, then update C, stopping at the first throw with the state reached (effects in RemovalFrame and RemovalFromPinned) |
| Tracker.Seeded | triangulation.cpp:60-80 | the state the constructor builds: ring `0..n-1`, the classified convex and reflex sets, and the initial ears (properties in SeededWellFormed) |
| Tracker.Clipped | triangulation.cpp:214-232 | `triangulate` from a given state on: no triangle once at most two vertices remain, otherwise one round (shape in ClippedShape) |
| Tracker.ClipRound | triangulation.cpp:219-226 | one round of the loop: the non-simple failure when no ear is left, otherwise clip the smallest ear |
| Tracker.ClipEar | triangulation.cpp:226-228 | remove the ear, passing on a throw, and record its triangle before those of the later rounds (one round proved in ClippedStep) |
| Tracker.EraseFirstProperties | triangulation.cpp:146 | erasing a present vertex from a duplicate-free ring leaves the survivors in their order, one fewer, still duplicate-free, and exactly the old members minus the vertex |
| Tracker.ClassifiedMembers | triangulation.cpp:66-75 | after visiting ids below k, the convex and reflex sets hold exactly the visited ids whose initial triangle turns left, respectively right |
| Tracker.InitialRingTriangle | triangulation.cpp:82-95 | in the seeded ring, vertex v's neighbour triangle exists and is the triangle at index v of the input points |
| Tracker.LastTriangleDegenerate | triangulation.cpp:18 | in a duplicate-free ring of valid ids, the last element's neighbour triangle exists and has zero determinant |
| Tracker.RingTriangleExists | triangulation.cpp:92-95 | `build_real_triangle_at` never throws for a ring vertex once every ring id indexes a point |
| Tracker.CachedAnswers | triangulation.cpp:97-118 | `is_convex`, `is_reflex` and `is_ear` with the pre-test answer yes, with no geometry, for a vertex already in the matching set |
| Tracker.FreshClassificationExclusive | triangulation.cpp:97-113 | for a vertex in neither set, the recomputed answers are never both convex and reflex |
| Tracker.EarTestMeaning | triangulation.cpp:115-128 | for a ring vertex of a valid state, `is_ear(v, false)` does not throw, and says yes exactly when no reflex vertex lies inside or on v's neighbour triangle |
| Tracker.ReflexNeighbourBlocksEar | triangulation.cpp:115-128 | a vertex whose neighbour A or C is reflex is never an ear, because corners count as inside |
| Tracker.ConvexityUpdateEffect | triangulation.cpp:184-193 | on a yes, v ends in the convex set and out of the reflex set; on a no or a throw, no set changes; the ring and the ears never change |
| Tracker.EarnessUpdateEffect | triangulation.cpp:195-207 | afterwards v is in the ear set exactly when the full ear test says yes; a throw changes nothing; the ring, convex and reflex sets never change |
| Tracker.VertexUpdateFrame | triangulation.cpp:130-138 | `update_vertex(v)` never changes the ring or any vertex's set membership except v's |
| Tracker.VertexUpdateMonotone | triangulation.cpp:130-138 | `update_vertex` never removes a vertex from the convex set and never adds one to the reflex set |
| Tracker.VertexUpdateKeepsValid | triangulation.cpp:130-138 | `update_vertex` keeps the invariant (duplicate-free ring of valid ids, sets inside the ring, convex and reflex disjoint, ears convex) and never throws for a ring vertex |
| Tracker.PinnedLastUpdateIsNoop | triangulation.cpp:130-138 | the pinned last vertex is never found convex, so updating it changes nothing |
| Tracker.PinnedUpdate | triangulation.cpp:130-138 | updating a ring vertex of a valid state with the last vertex pinned does not throw, and keeps the invariant, the pin, the ring and every other vertex's membership |
| Tracker.RemovalShrinksRing | triangulation.cpp:140-164 | a successful removal leaves the ring with v erased and one entry shorter |
| Tracker.RemovalFrame | triangulation.cpp:140-164 | whether or not it throws, `remove_vertex(v)` changes no set membership except that of v, A and C |
| Tracker.RemovalKeepsValid | triangulation.cpp:140-164 | `remove_vertex` keeps the invariant, whether or not it throws |
| Tracker.ErasurePinned | triangulation.cpp:143-151 | erasing a ring vertex other than the last keeps the invariant and the pin; v's neighbours survive, and are distinct when the ring had three vertices or more |
| Tracker.RemovalFromPinned | triangulation.cpp:140-164 | removing a ring vertex other than the pinned last one does not throw; it returns v's triangle with B == v, erases v from the ring and all sets, leaves A and C distinct and in the ring, and keeps the invariant and the pin |
| Tracker.ClassifiedWellFormed | triangulation.cpp:60-75 | after classification the convex and reflex sets are disjoint subsets of the ring `0..n-1`, and the last id is in neither |
| Tracker.InitialEarTests | triangulation.cpp:77-79 | after classification, the full ear test of each convex vertex says yes exactly for the initial ears |
| Tracker.SeededWellFormed | triangulation.cpp:60-80 | the constructed state satisfies the invariant, its ears are convex, convex and reflex are disjoint, and the last id is in no set |
| Tracker.EarTestReadsTriangleAndReflex | triangulation.cpp:115-128 | the full ear test of a vertex depends only on its neighbour triangle and the reflex set, not on the ear set |
| Tracker.SurvivorTriangleUnchanged | triangulation.cpp:140-151 | erasing v from a duplicate-free ring, v not last, leaves the neighbour triangle of every survivor other than v's neighbours A and C as it was |
| Tracker.UpdateSettlesExact | triangulation.cpp:130-138 | updating a non-reflex ring vertex y leaves the ring and the reflex set as they were, and makes the ear set agree with the full ear test at y without disturbing it elsewhere |
| Tracker.SeededEarsExact | triangulation.cpp:77-79 | after construction the ear set is exactly the set of convex vertices that pass the full ear test |
| Tracker.ErasureKeepsEarsExact | triangulation.cpp:143-151 | erasing an ear: its neighbours A and C are not reflex, the reflex set is unchanged, and the ear set still agrees with the full ear test on every convex survivor other than A and C |
| Tracker.RemovalKeepsEarsExact | triangulation.cpp:140-164 | removing an ear from a valid pinned state whose ear set is exact does not throw, leaves the reflex set unchanged and the ear set exact: updating only A and C suffices |
| Tracker.ClippedStep | triangulation.cpp:219-229 | from a valid pinned state with more than two vertices and an ear, the round does not throw; it clips the smallest ear's id B, leaves a valid pinned ring one shorter without B whose members include A and C, and records the triangle before the rest; when the ear set is exact, B passes the full ear test, the reflex set is unchanged and the ear set stays exact |
| Tracker.ValidRingFits | triangulation.cpp:178-181 | the ring of a valid state never holds more ids than there are points |
| Tracker.ClippedShape | triangulation.cpp:214-232 | from a valid pinned state the driver either fails as non-simple with more than two vertices left, or returns one triangle for each ring vertex beyond two; each triangle has three distinct ring corners, its B is not the last id, and no B repeats |
| Tracker.QuadrilateralWithoutEar | triangulation.cpp:60-80 | a four-vertex polygon whose vertex 0 is flat, vertex 1 reflex and vertex 2 convex has convex set {2}, reflex set {1} and no ear, so `triangulate` fails as non-simple |
| Polygons.Polygon.constructor | triangulation.cpp:60-80 | builds exactly the seeded state: ring `0..n-1`, the classified convex and reflex sets, the convex vertices passing the ear test as ears; the result satisfies the invariant with the last id in no set |
| Polygons.Polygon.SeedRing | triangulation.cpp:63-64 | the first loop pushes the ids `0..n-1` in order |
| Polygons.Polygon.ClassifyAll | triangulation.cpp:66-75 | the second loop leaves the convex and reflex sets of the classification |
| Polygons.Polygon.ClassifyVertex | triangulation.cpp:67-74 | one visit of the second loop: vertex k joins the convex set exactly when its initial triangle turns left, and the reflex set exactly when it turns right |
| Polygons.Polygon.FindEars | triangulation.cpp:77-79 | the third loop sets the ear set to exactly the convex vertices whose full ear test says yes |
| Polygons.Polygon.CheckEar | triangulation.cpp:78 | one visit of the third loop: the full ear test of a convex vertex says yes exactly for the vertices known to pass it |
| Polygons.Polygon.BuildFakeTriangleAt | triangulation.cpp:82-85 | throws the not-found error exactly when v is not in the ring; otherwise B == v, A is the ring's cyclic predecessor of v's position, and C its cyclic successor, or v itself when v is the last ring element |
| Polygons.Polygon.BuildRealTriangleAt | triangulation.cpp:87-95 | succeeds exactly when v is in the ring and v and its neighbour ids A and C from `build_fake_triangle_at` index points; then its corners are the points at A, v and C; the throw is not-found or `out_of_range`; it succeeds for every ring vertex once every ring id indexes a point |
| Polygons.Polygon.IsConvexVertex | triangulation.cpp:97-104 | yes for a vertex in the convex set; otherwise throws exactly when the triangle cannot be built, and is convex exactly when the triangle's determinant is positive |
| Polygons.Polygon.IsReflexVertex | triangulation.cpp:106-113 | yes for a vertex in the reflex set; otherwise throws exactly when the triangle cannot be built, and is reflex exactly when the determinant is negative |
| Polygons.Polygon.IsEar | triangulation.cpp:115-128 | the scan of the reflex set in ascending order, stopping at the first vertex inside, answers what the ear test specifies (the meaning is in EarTestMeaning and CachedAnswers) |
| Polygons.Polygon.UpdateVertexConvexity | triangulation.cpp:184-193 | leaves the state and result `ConvexityUpdate` gives (effect in ConvexityUpdateEffect) and keeps the invariant |
| Polygons.Polygon.UpdateVertexEarness | triangulation.cpp:195-207 | leaves the state and result `EarnessUpdate` gives (effect in EarnessUpdateEffect); keeps the invariant when v is convex |
| Polygons.Polygon.UpdateVertex | triangulation.cpp:130-138 | leaves the state `VertexUpdate` gives (frame in VertexUpdateFrame) and keeps the invariant |
| Polygons.Polygon.RemoveVertex | triangulation.cpp:140-164 | leaves the state and result `VertexRemoval` gives, including after a throw part-way (effects in RemovalFrame and RemovalFromPinned), and keeps the invariant |
| Polygons.Polygon.HasEar | triangulation.cpp:166-169 | yes exactly when `get_next_ear` would not throw |
| Polygons.Polygon.GetNextEar | triangulation.cpp:171-176 | throws the empty-list `logic_error` exactly when there is no ear; otherwise returns the smallest ear |
| Polygons.Polygon.Size | triangulation.cpp:178-181 | the ring length, which for a valid object never exceeds the number of input points |
| Polygons.Triangulate | triangulation.cpp:214-232 | returns what `Clipped` gives from the constructed state; a failure is the non-simple error with more than two vertices; a success has max(n-2, 0) triangles, each with three distinct ids in `0..n-1` and B other than n-1, and pairwise distinct B ids; throughout the loop the ear set is exactly the convex vertices passing the full ear test and the reflex set keeps its initial value |
| Polygons.SampleVertex0Flat | triangulation.cpp:239-242 | vertex 0 of the sample lies on the line through its neighbours |
| Polygons.SampleVertex1Reflex | triangulation.cpp:239-242 | the sample turns clockwise at vertex 1 |
| Polygons.SampleVertex2Convex | triangulation.cpp:239-242 | the sample turns counter-clockwise at vertex 2 |
| Polygons.SampleHasNoEar | triangulation.cpp:239-242 | on the sample polygon the convex set is {2}, the reflex set is {1}, there is no ear, and `triangulate` fails as non-simple |
| Polygons.SampleMessage | triangulation.cpp:253-256 | for the sample polygon the handler of `main` catches the non-simple failure, whose message is "Triangulation failed; polygon is non-simple." |
| Polygons.TriangulateSample | triangulation.cpp:236-246 | the sample program's `triangulate` call throws the non-simple error, so it prints that message and no triangle |

## Left out

- The debug `printf` loop in `remove_vertex` (`triangulation.cpp:153-157`) and the printing in `main` are output only and are not modelled. `TriangulateSample` returns the result that `main` would print.
- The C++ code uses IEEE-754 `double` coordinates. The model uses exact reals, so rounding is not modelled.
- The text of `std::vector::at`'s exception message is chosen by the standard library. `Error.What` uses a fixed stand-in for it.
- `std::vector`, `std::set` and `std::find` are modelled by their sequence and set meaning. Ascending iteration over a set is modelled by repeatedly taking `SetMin`. Allocation and iterator invalidation are not modelled.
- `vertex_list` is a `std::vector<size_t>`. The model uses unbounded naturals, so `size_t` overflow is not modelled; ids never exceed the input size.
- The polygon holds a reference to the caller's point vector. The model copies it into an immutable field. The code never writes through that reference, so no aliasing is modelled.
- Global geometric correctness is not modelled: coverage of the polygon's area, non-overlap of the triangles, and the two-ears theorem. The code does not establish it, and because C does not wrap at the last index it would not hold as written.
- Performance and the cost of each removal are not modelled.
- Polygons.Polygon.IsEar: its contract ties the result to the specification function `EarnessOf`. The meaning of that function is proved separately, in `EarTestMeaning` and `CachedAnswers`.
