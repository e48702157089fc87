/** `BBoxFinder`: the named reference regions, and the smallest one that contains a box. */
module Gazetteer {
  import opened Wrappers

  /** (min_lon, min_lat, max_lon, max_lat), exact where the source uses float32. */
  datatype BBox = BBox(minx: real, miny: real, maxx: real, maxy: real)

  /** One data row of the bundled regions table: name, minx, miny, maxx, maxy. */
  datatype RegionRow = RegionRow(name: string, minx: real, miny: real, maxx: real, maxy: real)

  const NullIslandName: string := "Null Island"
  const NullIslandBox: BBox := BBox(-3.0, -3.0, 3.0, 3.0)
  const WorldName: string := "World"

  function Area(b: BBox): real {
    (b.maxx - b.minx) * (b.maxy - b.miny)
  }

  /** `region` encloses `q` on both axes (touching edges allowed). */
  predicate Contains(region: BBox, q: BBox) {
    region.minx <= q.minx && region.miny <= q.miny && region.maxx >= q.maxx && region.maxy >= q.maxy
  }

  /**
   * Box `i` contains `q`, no containing box has a smaller area, and every
   * containing box before `i` has a strictly larger one.
   */
  ghost predicate IsSmallestContaining(boxes: seq<BBox>, areas: seq<real>, q: BBox, i: nat)
    requires |areas| == |boxes|
  {
    i < |boxes| && Contains(boxes[i], q) &&
    (forall k :: 0 <= k < |boxes| && Contains(boxes[k], q) ==> areas[i] <= areas[k]) &&
    (forall k :: 0 <= k < i && Contains(boxes[k], q) ==> areas[i] < areas[k])
  }

  /**
   * The first containing box of least area among `boxes[..n]`, which is the
   * index `argmin` picks among the containing indices; None when none contains `q`.
   */
  function SmallestContaining(boxes: seq<BBox>, areas: seq<real>, q: BBox, n: nat): (r: Option<nat>)
    requires |areas| == |boxes| && n <= |boxes|
    ensures r.None? <==> forall k :: 0 <= k < n ==> !Contains(boxes[k], q)
    ensures r.Some? ==> IsSmallestContaining(boxes[..n], areas[..n], q, r.value)
  {
    if n == 0 then None
    else
      var best := SmallestContaining(boxes, areas, q, n - 1);
      if !Contains(boxes[n - 1], q) then best
      else if best.None? || areas[n - 1] < areas[best.value] then Some(n - 1)
      else best
  }

  class BBoxFinder {
    var names: seq<string>
    var bboxes: seq<BBox>
    var areas: seq<real>

    /** Names and boxes line up, region 0 is Null Island, and each area is its box's. */
    ghost predicate Valid()
      reads this
    {
      |names| == |bboxes| == |areas| >= 1 &&
      names[0] == NullIslandName && bboxes[0] == NullIslandBox &&
      forall k :: 0 <= k < |bboxes| ==> areas[k] == Area(bboxes[k])
    }

    /** `BBoxFinder(bbox_file)`, given the data rows of the file in order. */
    constructor (rows: seq<RegionRow>)
      ensures Valid()
      ensures |names| == |rows| + 1
      ensures forall k :: 0 <= k < |rows| ==>
                names[k + 1] == rows[k].name &&
                bboxes[k + 1] == BBox(rows[k].minx, rows[k].miny, rows[k].maxx, rows[k].maxy)
    {
      names := [NullIslandName];
      bboxes := [NullIslandBox];
      areas := [];
      new;
      for i := 0 to |rows|
        invariant |names| == |bboxes| == i + 1
        invariant names[0] == NullIslandName && bboxes[0] == NullIslandBox
        invariant forall k :: 0 <= k < i ==>
                    names[k + 1] == rows[k].name &&
                    bboxes[k + 1] == BBox(rows[k].minx, rows[k].miny, rows[k].maxx, rows[k].maxy)
      {
        var row := rows[i];
        names := names + [row.name];
        bboxes := bboxes + [BBox(row.minx, row.miny, row.maxx, row.maxy)];
      }
      areas := seq(|bboxes|, k requires 0 <= k < |bboxes| reads this => Area(bboxes[k]));
    }

    /**
     * `find_containing_bbox(query_bbox)`: "World" when no region contains the
     * query; otherwise the name of the containing region of least area, the
     * lowest index winning a tie.
     */
    function FindContainingBBox(q: BBox): (r: string)
      requires Valid()
      reads this
      ensures (forall k :: 0 <= k < |bboxes| ==> !Contains(bboxes[k], q)) ==> r == WorldName
      ensures (exists k :: 0 <= k < |bboxes| && Contains(bboxes[k], q)) ==>
                exists i: nat :: IsSmallestContaining(bboxes, areas, q, i) && r == names[i]
    {
      var n := |bboxes|;
      assert bboxes[..n] == bboxes && areas[..n] == areas;
      match SmallestContaining(bboxes, areas, q, n)
      case None => WorldName
      case Some(i) => names[i]
    }

    /**
     * A query inside Null Island's box is labelled "Null Island" unless some
     * loaded region that contains it has an area below 36, the area of Null
     * Island's box.
     */
    lemma NullIslandWins(q: BBox)
      requires Valid()
      requires Contains(NullIslandBox, q)
      requires forall k :: 1 <= k < |bboxes| && Contains(bboxes[k], q) ==> areas[k] >= 36.0
      ensures FindContainingBBox(q) == NullIslandName
    {
      assert Contains(bboxes[0], q) && areas[0] == 36.0;
      var i: nat :| IsSmallestContaining(bboxes, areas, q, i) && FindContainingBBox(q) == names[i];
      assert IsSmallestContaining(bboxes, areas, q, i);
      assert i < |bboxes| && Contains(bboxes[i], q);
    }
  }
}
