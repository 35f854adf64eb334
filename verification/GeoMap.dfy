/** src/ngx_http_lookaround_map.c: locations, rectangles and their split into four. */
module GeoMap {

  datatype Loc = Loc(lat: int, lon: int)

  /** Half open: the left and top edges belong to it, the right and bottom ones do not. */
  datatype Rect = Rect(lt: Loc, rb: Loc)

  /** C's division by two, which truncates toward zero. */
  function Half(x: int): int { if x >= 0 then x / 2 else -((-x) / 2) }

  /** fn_loc_GetRCCenter */
  function Center(rc: Rect): Loc { Loc(Half(rc.lt.lat + rc.rb.lat), Half(rc.lt.lon + rc.rb.lon)) }

  /** fn_b_IsLocInRC */
  predicate InRect(rc: Rect, loc: Loc) {
    rc.lt.lat <= loc.lat < rc.rb.lat && rc.lt.lon <= loc.lon < rc.rb.lon
  }

  /** The centre is the middle, rounded toward zero. */
  lemma CenterIs(rc: Rect)
    ensures Middle(Center(rc).lat, rc.lt.lat + rc.rb.lat) && Middle(Center(rc).lon, rc.lt.lon + rc.rb.lon)
  {
  }

  predicate Middle(c: int, sum: int) {
    if sum >= 0 then 2 * c <= sum <= 2 * c + 1 else 2 * c - 1 <= sum <= 2 * c
  }

  datatype Option<T> = None | Some(value: T)

  function Max(a: int, b: int): int { if a > b then a else b }
  function Min(a: int, b: int): int { if a < b then a else b }

  /** fn_b_IntersectRc */
  function Intersect(a: Rect, b: Rect): (r: Option<Rect>)
    ensures forall loc :: InRect(a, loc) && InRect(b, loc) <==> r.Some? && InRect(r.value, loc)
  {
    if a.lt.lat >= b.rb.lat || a.rb.lat <= b.lt.lat || a.rb.lon <= b.lt.lon || a.lt.lon >= b.rb.lon then None
    else Some(Rect(Loc(Max(a.lt.lat, b.lt.lat), Max(a.lt.lon, b.lt.lon)), Loc(Min(a.rb.lat, b.rb.lat), Min(a.rb.lon, b.rb.lon))))
  }

  const LT := 0
  const RT := 1
  const LB := 2
  const RB := 3

  /** The rectangles of ngx_http_lookaround_create_child_mapnode. */
  function ChildRect(rc: Rect, i: nat): Rect {
    var c := Center(rc);
    if i == LT then Rect(rc.lt, c)
    else if i == RT then Rect(Loc(rc.lt.lat, c.lon), Loc(c.lat, rc.rb.lon))
    else if i == LB then Rect(Loc(c.lat, rc.lt.lon), Loc(rc.rb.lat, c.lon))
    else Rect(c, rc.rb)
  }

  /** fn_i_GetChildRcIdx: it finds the one child rectangle that holds the location, and
      fails exactly for locations outside. */
  function ChildIndex(rc: Rect, loc: Loc): (r: int)
    ensures r == -1 <==> !InRect(rc, loc)
    ensures InRect(rc, loc) ==> 0 <= r < 4 && forall i: nat :: i < 4 ==> (InRect(ChildRect(rc, i), loc) <==> i == r)
  {
    if !InRect(rc, loc) then -1
    else
      var c := Center(rc);
      if loc.lat >= c.lat then if loc.lon >= c.lon then RB else LB
      else if loc.lon >= c.lon then RT else LT
  }

  predicate Proper(rc: Rect) { rc.lt.lat <= rc.rb.lat && rc.lt.lon <= rc.rb.lon }

  /** The four child rectangles partition their parent, whatever the rounding, and can be
      split again. */
  lemma Partition(rc: Rect, loc: Loc)
    requires Proper(rc)
    ensures InRect(rc, loc) <==> exists i: nat :: i < 4 && InRect(ChildRect(rc, i), loc)
    ensures forall i: nat, j: nat :: i < 4 && j < 4 && InRect(ChildRect(rc, i), loc) && InRect(ChildRect(rc, j), loc) ==> i == j
    ensures forall i: nat :: i < 4 ==> Proper(ChildRect(rc, i))
  {
    if InRect(rc, loc) { assert InRect(ChildRect(rc, ChildIndex(rc, loc)), loc); }
  }

  /** fn_v_InitRootRect, in millionths of a degree. */
  const WORLD := Rect(Loc(-90_000_000, -180_000_000), Loc(90_000_000, 180_000_000))
}
