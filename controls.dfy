/**
 * The viewer's keyboard state: which Delaunay layers are visible, how the
 * interpolated mesh is drawn, whether normals are shown, and which of the
 * interpolation meshes is selected.
 */
module Controls {

  /** Which parts of the Delaunay triangulation are drawn. */
  datatype DelaunayVisibility = All | OnlyLines | None
  {
    /**
     * The D key: All, then OnlyLines, then None, then All again. The state
     * always changes; the mesh comes back only after None, and the lines are
     * drawn unless the new state is None.
     */
    function Next(): (n: DelaunayVisibility)
      ensures n != this
      ensures n.ShowsMesh() <==> this == None
      ensures n.ShowsLines() <==> this != OnlyLines
    {
      match this
      case All => OnlyLines
      case OnlyLines => None
      case None => All
    }

    /** The triangulation's mesh is in the scene. */
    predicate ShowsMesh()
    {
      this == All
    }

    /** The triangulation's edges are drawn each frame. */
    predicate ShowsLines()
    {
      this == All || this == OnlyLines
    }
  }

  /** How the selected interpolation mesh is drawn. */
  datatype GridRenderType = Lines | Polygons
  {
    /** The T key swaps the two ways of drawing: the result is always the other one. */
    function Next(): (n: GridRenderType)
      ensures n != this
    {
      match this
      case Lines => Polygons
      case Polygons => Lines
    }
  }

  /** The D key cycles through three distinct states: three presses restore any state, fewer never do. */
  lemma VisibilityCycles(v: DelaunayVisibility)
    ensures v.Next().Next().Next() == v
    ensures v.Next() != v && v.Next().Next() != v
    ensures v.Next().ShowsLines() <==> v != OnlyLines
  {
  }

  /** The T key is an involution without fixed points. */
  lemma RenderTypeAlternates(t: GridRenderType)
    ensures t.Next().Next() == t
    ensures t.Next() != t
  {
  }

  /**
   * The G key: the index of the selected mesh moves on by one, and past the
   * last mesh, through the extra "no mesh" position `count`, back to 0.
   */
  function NextMeshIndex(i: nat, count: nat): (j: nat)
    ensures i <= count ==> j <= count
    ensures i <= count ==> j == (i + 1) % (count + 1)
  {
    if i + 1 > count then 0 else i + 1
  }

  /** The selected index after `n` presses of the G key from `i`. */
  function Presses(i: nat, count: nat, n: nat): nat
  {
    if n == 0 then i else NextMeshIndex(Presses(i, count, n - 1), count)
  }

  /** Pressing G keeps a valid index valid. */
  lemma {:induction false} PressesStayInRange(i: nat, count: nat, n: nat)
    requires i <= count
    ensures Presses(i, count, n) <= count
  {
    if n > 0 {
      PressesStayInRange(i, count, n - 1);
    }
  }

  /** `a` presses followed by `b` presses are `a + b` presses. */
  lemma {:induction false} PressesCompose(i: nat, count: nat, a: nat, b: nat)
    ensures Presses(i, count, a + b) == Presses(Presses(i, count, a), count, b)
  {
    if b > 0 {
      PressesCompose(i, count, a, b - 1);
    }
  }

  /** Below the last position each press adds one. */
  lemma {:induction false} PressesClimb(i: nat, count: nat, k: nat)
    requires i + k <= count
    ensures Presses(i, count, k) == i + k
  {
    if k > 0 {
      PressesClimb(i, count, k - 1);
    }
  }

  /**
   * After `count + 1` presses of G the selection is back where it started,
   * and from 0 the `k`-th press selects index `k`: every position is visited once per cycle.
   */
  lemma MeshCycleReturns(i: nat, count: nat, k: nat)
    requires i <= count
    ensures Presses(i, count, count + 1) == i
    ensures k <= count ==> Presses(0, count, k) == k
  {
    PressesCompose(i, count, count - i, i + 1);
    PressesClimb(i, count, count - i);
    PressesCompose(count, count, 1, i);
    PressesClimb(0, count, i);
    if k <= count {
      PressesClimb(0, count, k);
    }
  }

  /** The key-driven state of the viewer window. */
  class Viewer {
    var visibility: DelaunayVisibility
    var renderType: GridRenderType
    var showNormals: bool
    var meshIndex: nat
    /** The number of interpolation meshes the viewer was built with. */
    const meshCount: nat

    /** The selection is a mesh or the extra "no mesh" position. */
    ghost predicate Valid()
      reads this
    {
      meshIndex <= meshCount
    }

    /** The state at start-up: everything of the triangulation visible, meshes drawn as lines, no normals, the first mesh. */
    constructor (meshCount: nat)
      ensures Valid()
      ensures this.meshCount == meshCount
      ensures visibility == All && renderType == Lines && !showNormals && meshIndex == 0
    {
      this.meshCount := meshCount;
      visibility := All;
      renderType := Lines;
      showNormals := false;
      meshIndex := 0;
    }

    /** The selected mesh is drawn as polygons. */
    predicate ShowsMeshPolygons()
      reads this
    {
      meshIndex < meshCount && renderType == Polygons
    }

    /** The selected mesh's edges are drawn as lines. */
    predicate ShowsMeshLines()
      reads this
    {
      renderType == Lines && meshIndex < meshCount
    }

    /** The N key toggles the normals. */
    method PressN()
      requires Valid()
      modifies this
      ensures Valid()
      ensures showNormals == !old(showNormals)
      ensures visibility == old(visibility) && renderType == old(renderType) && meshIndex == old(meshIndex)
    {
      showNormals := !showNormals;
    }

    /**
     * The G key selects the next mesh, wrapping through "no mesh"; it reports
     * whether the new selection is a mesh whose name is announced.
     */
    method PressG() returns (announced: bool)
      requires Valid()
      modifies this
      ensures Valid()
      ensures meshIndex == NextMeshIndex(old(meshIndex), meshCount)
      ensures announced <==> meshIndex < meshCount
      ensures visibility == old(visibility) && renderType == old(renderType) && showNormals == old(showNormals)
    {
      meshIndex := meshIndex + 1;
      if meshIndex > meshCount {
        meshIndex := 0;
      }
      announced := meshIndex < meshCount;
    }

    /** The T key switches between drawing the selected mesh as lines and as polygons. */
    method PressT()
      requires Valid()
      modifies this
      ensures Valid()
      ensures renderType == old(renderType).Next()
      ensures renderType == Polygons <==> old(renderType) == Lines
      ensures visibility == old(visibility) && showNormals == old(showNormals) && meshIndex == old(meshIndex)
    {
      renderType := renderType.Next();
    }

    /** The D key moves the triangulation's visibility on; the mesh is in the scene again exactly when it becomes All. */
    method PressD() returns (meshShown: bool)
      requires Valid()
      modifies this
      ensures Valid()
      ensures visibility == old(visibility).Next()
      ensures meshShown <==> visibility.ShowsMesh()
      ensures meshShown <==> old(visibility) == None
      ensures renderType == old(renderType) && showNormals == old(showNormals) && meshIndex == old(meshIndex)
    {
      visibility := visibility.Next();
      meshShown := visibility.ShowsMesh();
    }
  }

  /**
   * The selected mesh is drawn in exactly one of the two ways while a mesh is
   * selected, and not at all in the "no mesh" position.
   */
  lemma MeshDrawnOneWay(v: Viewer)
    requires v.Valid()
    ensures v.meshIndex < v.meshCount ==> (v.ShowsMeshPolygons() <==> !v.ShowsMeshLines())
    ensures v.meshIndex == v.meshCount ==> !v.ShowsMeshPolygons() && !v.ShowsMeshLines()
  {
  }
}
