/** The value-level helpers of the triangulator: the failure kinds it raises,
    the search and minimum it borrows from the container library, and the
    construction of a vertex's neighbour triangle. */
module Neighbours {
  import opened Geom

  /** One constructor per place the triangulator throws. */
  datatype Error =
    | IndexOutOfRange   // std::out_of_range from build_triangle_at_index
    | ElementNotFound   // std::logic_error from build_triangle_at_element
    | VertexOutOfRange  // std::out_of_range from std::vector::at in make_triangle_real
    | EarListEmpty      // std::logic_error from get_next_ear
    | NonSimplePolygon  // std::logic_error from triangulate
  {
    /** The exception message. The text of std::vector::at's message is chosen
        by the standard library; a fixed stand-in is used for it. */
    function What(): string {
      match this
      case IndexOutOfRange => "build_triangle_at_index: index is out-of-range."
      case ElementNotFound => "build_triangle_at_element: element could not be found."
      case VertexOutOfRange => "vector::at"
      case EarListEmpty => "get_next_ear: Ear list is empty."
      case NonSimplePolygon => "Triangulation failed; polygon is non-simple."
    }
  }

  /** The message triangulate's failure carries, which the sample program's
      handler prints. */
  lemma NonSimpleMessage()
    ensures NonSimplePolygon.What() == "Triangulation failed; polygon is non-simple."
  {
  }

  datatype Result<+T> = Ok(value: T) | Err(error: Error)

  /** A triangle whose corners are vertex ids. */
  type FakeTriangle = Triangle<nat>

  /** A triangle whose corners are points. */
  type RealTriangle = Triangle<Vec2>

  /** The cyclic predecessor: the element before the first is the last one. */
  function CyclicPrev<T>(v: seq<T>, i: nat): T
    requires i < |v|
  {
    v[(i + |v| - 1) % |v|]
  }

  /** The cyclic successor: the element after the last is the first one. */
  function CyclicNext<T>(v: seq<T>, i: nat): T
    requires i < |v|
  {
    v[(i + 1) % |v|]
  }

  lemma NeighbourIndices(i: nat, n: nat)
    requires i < n
    ensures (i + n - 1) % n == if i > 0 then i - 1 else n - 1
    ensures i < n - 1 ==> (i + 1) % n == i + 1
  {
  }

  /** std::find: the position of the first occurrence of e, or |s| when e is absent. */
  function IndexOf<T(==)>(s: seq<T>, e: T): (i: nat)
    ensures i <= |s|
    ensures i < |s| <==> e in s
    ensures i < |s| ==> s[i] == e
    ensures forall j :: 0 <= j < i ==> s[j] != e
  {
    if |s| == 0 then 0
    else if s[0] == e then 0
    else 1 + IndexOf(s[1..], e)
  }

  /** A set of naturals holding y has a least element: descend from y to a
      smaller member until there is none. */
  lemma {:induction false} LeastElementExists(s: set<nat>, y: nat)
    requires y in s
    ensures exists m :: m in s && forall x :: x in s ==> m <= x
    decreases y
  {
    if !forall x :: x in s ==> y <= x {
      var z :| z in s && z < y;
      LeastElementExists(s, z);
    }
  }

  /** The first element of an ordered std::set. */
  function SetMin(s: set<nat>): (m: nat)
    requires s != {}
    ensures m in s && forall x :: x in s ==> m <= x
  {
    var y :| y in s;
    LeastElementExists(s, y);
    var m :| m in s && forall x :: x in s ==> m <= x;
    m
  }

  /** The triangle made of the element at index i and its two neighbours.
      The predecessor wraps round to the last element, but the successor of
      the last element is that element itself, so the last index gets a
      degenerate triangle with C == B. */
  function BuildTriangleAtIndex<T>(v: seq<T>, i: nat): (r: Result<Triangle<T>>)
    ensures r.Err? <==> i >= |v|
    ensures r.Err? ==> r.error == IndexOutOfRange
    ensures r.Ok? ==> r.value.B == v[i]
    ensures r.Ok? && i == |v| - 1 ==> r.value.C == r.value.B
  {
    if i >= |v| then Err(IndexOutOfRange)
    else
      Ok(Triangle(v[if i > 0 then i - 1 else |v| - 1],
                  v[i],
                  v[if i < |v| - 1 then i + 1 else |v| - 1]))
  }

  /** A is the cyclic predecessor of B, and so is C its cyclic successor at
      every index but the last. */
  lemma NeighboursAreCyclic<T>(v: seq<T>, i: nat)
    requires i < |v|
    ensures BuildTriangleAtIndex(v, i).value.A == CyclicPrev(v, i)
    ensures i < |v| - 1 ==> BuildTriangleAtIndex(v, i).value.C == CyclicNext(v, i)
  {
    NeighbourIndices(i, |v|);
  }

  /** The neighbour triangle of element e, found by its first occurrence. */
  function BuildTriangleAtElement<T(==)>(v: seq<T>, e: T): (r: Result<Triangle<T>>)
    ensures r.Err? <==> e !in v
    ensures r.Err? ==> r.error == ElementNotFound
    ensures r.Ok? ==> r.value.B == e && r.value.A in v && r.value.C in v
  {
    var i := IndexOf(v, e);
    if i == |v| then Err(ElementNotFound) else BuildTriangleAtIndex(v, i)
  }

  /** The triangle of a present element e is the one at e's first position:
      A is its cyclic predecessor, and C its cyclic successor, except at the
      last position, where C is e itself. */
  lemma NeighboursOfElement<T>(v: seq<T>, e: T)
    requires e in v
    ensures
      var r := BuildTriangleAtElement(v, e);
      var i := IndexOf(v, e);
      && r.Ok? && r.value.B == e
      && r.value.A == CyclicPrev(v, i)
      && (i < |v| - 1 ==> r.value.C == CyclicNext(v, i))
      && (i == |v| - 1 ==> r.value.C == e)
  {
    NeighboursAreCyclic(v, IndexOf(v, e));
  }

  /** Resolves the ids of a fake triangle to the points they index. */
  function MakeTriangleReal<T>(v: seq<T>, tri: FakeTriangle): (r: Result<Triangle<T>>)
    ensures r.Ok? <==> tri.A < |v| && tri.B < |v| && tri.C < |v|
    ensures r.Err? ==> r.error == VertexOutOfRange
    ensures r.Ok? ==> r.value.A == v[tri.A] && r.value.B == v[tri.B] && r.value.C == v[tri.C]
  {
    if tri.A >= |v| || tri.B >= |v| || tri.C >= |v| then Err(VertexOutOfRange)
    else Ok(Triangle(v[tri.A], v[tri.B], v[tri.C]))
  }

  /** At an interior position the two neighbours are distinct from each other
      and from the element whenever the sequence has no repeated element. */
  lemma {:induction false} InteriorNeighboursDistinct<T>(v: seq<T>, i: nat)
    requires 3 <= |v| && i < |v| - 1
    requires forall j, k :: 0 <= j < k < |v| ==> v[j] != v[k]
    ensures BuildTriangleAtIndex(v, i).Ok?
    ensures var t := BuildTriangleAtIndex(v, i).value; t.A != t.B && t.B != t.C && t.A != t.C
  {
    var a := if i > 0 then i - 1 else |v| - 1;
    assert a != i && a != i + 1 && i != i + 1;
    assert v[a] != v[i] && v[i] != v[i + 1] && v[a] != v[i + 1] by {
      if a < i { assert v[a] != v[i + 1]; } else { assert v[i + 1] != v[a]; }
    }
  }
}
