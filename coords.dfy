/** Grid coordinates and the neighbour topology of a k-by-k board. */
module Coords {

  datatype Option<T> = None | Some(value: T)

  /** A board position (row, col). */
  type Coord = (int, int)

  predicate InBounds(c: Coord, k: int) {
    0 <= c.0 < k && 0 <= c.1 < k
  }

  /** Axis-aligned adjacency: equal in one component, one apart in the other. */
  predicate Adjacent(a: Coord, b: Coord) {
    (a.0 == b.0 && (a.1 == b.1 + 1 || b.1 == a.1 + 1)) ||
    (a.1 == b.1 && (a.0 == b.0 + 1 || b.0 == a.0 + 1))
  }

  /** `n` is one of the in-bounds axis-adjacent positions of `c`. */
  predicate IsNeighbour(c: Coord, n: Coord, k: int) {
    InBounds(n, k) && Adjacent(c, n)
  }

  /** Every position of a k-by-k board. */
  function AllCoords(k: int): set<Coord> {
    set r, c | 0 <= r < k && 0 <= c < k :: (r, c)
  }

  // The four neighbour slots a cell computes when it is built.
  function LeftOf(c: Coord): Option<Coord> {
    if c.1 > 0 then Some((c.0, c.1 - 1)) else None
  }

  function RightOf(c: Coord, k: int): Option<Coord> {
    if c.1 < k - 1 then Some((c.0, c.1 + 1)) else None
  }

  function DownOf(c: Coord, k: int): Option<Coord> {
    if c.0 < k - 1 then Some((c.0 + 1, c.1)) else None
  }

  function UpOf(c: Coord): Option<Coord> {
    if c.0 > 0 then Some((c.0 - 1, c.1)) else None
  }

  /** The slots in the order the cell lists them: left, right, down, up. */
  function NeighbourSlots(c: Coord, k: int): seq<Option<Coord>> {
    [LeftOf(c), RightOf(c, k), DownOf(c, k), UpOf(c)]
  }

  /** The positions held by the present slots. */
  function Present(slots: seq<Option<Coord>>): set<Coord> {
    set i | 0 <= i < |slots| && slots[i].Some? :: slots[i].value
  }

  /**
    * Topology: for an in-bounds cell, the present slots are exactly the
    * in-bounds axis-adjacent positions, and no position fills two slots.
    */
  lemma NeighbourTopology(c: Coord, k: int)
    requires InBounds(c, k)
    ensures forall n :: n in Present(NeighbourSlots(c, k)) <==> IsNeighbour(c, n, k)
    ensures forall i, j :: 0 <= i < j < 4 && NeighbourSlots(c, k)[i].Some? && NeighbourSlots(c, k)[j].Some?
              ==> NeighbourSlots(c, k)[i] != NeighbourSlots(c, k)[j]
  {
    var s := NeighbourSlots(c, k);
    forall n | IsNeighbour(c, n, k)
      ensures n in Present(s)
    {
      if n == (c.0, c.1 - 1) { assert s[0] == Some(n); }
      else if n == (c.0, c.1 + 1) { assert s[1] == Some(n); }
      else if n == (c.0 + 1, c.1) { assert s[2] == Some(n); }
      else { assert s[3] == Some(n); }
    }
  }

  /** Each slot, when present, is in bounds and adjacent. */
  lemma SlotIsNeighbour(c: Coord, k: int, i: int)
    requires InBounds(c, k) && 0 <= i < 4 && NeighbourSlots(c, k)[i].Some?
    ensures IsNeighbour(c, NeighbourSlots(c, k)[i].value, k)
  {
  }

  /** On a board with k >= 2 every in-bounds cell has two neighbours. */
  lemma TwoNeighbours(c: Coord, k: int)
    requires k >= 2 && InBounds(c, k)
    ensures exists n, m :: IsNeighbour(c, n, k) && IsNeighbour(c, m, k) && n != m
  {
    var n := if c.1 > 0 then (c.0, c.1 - 1) else (c.0, c.1 + 1);
    var m := if c.0 > 0 then (c.0 - 1, c.1) else (c.0 + 1, c.1);
    assert IsNeighbour(c, n, k) && IsNeighbour(c, m, k) && n != m;
  }

  /** The board is bipartite: two neighbours of one cell are never adjacent. */
  lemma NoTriangle(a: Coord, b: Coord, x: Coord)
    requires Adjacent(a, b) && Adjacent(a, x)
    ensures !Adjacent(x, b)
  {
  }

  /** The positions (r, c) with 0 <= c < n. */
  function RowCoords(r: int, n: int): set<Coord> {
    set c | 0 <= c < n :: (r, c)
  }

  /** The positions of the first m rows of a board of width k. */
  function Band(m: int, k: int): set<Coord> {
    set r, c | 0 <= r < m && 0 <= c < k :: (r, c)
  }

  lemma {:induction false} RowCoordsCount(r: int, n: nat)
    ensures |RowCoords(r, n)| == n
  {
    if n > 0 {
      assert RowCoords(r, n) == RowCoords(r, n - 1) + {(r, n - 1)};
      RowCoordsCount(r, n - 1);
    } else {
      assert RowCoords(r, n) == {};
    }
  }

  lemma {:induction false} BandCount(m: nat, k: nat)
    ensures |Band(m, k)| == m * k
  {
    if m > 0 {
      var lower, top := Band(m - 1, k), RowCoords(m - 1, k);
      assert Band(m, k) == lower + top by {
        forall p | p in Band(m, k) ensures p in lower + top {
          if p.0 < m - 1 { assert p in lower; } else { assert p in top; }
        }
      }
      assert lower !! top;
      BandCount(m - 1, k);
      RowCoordsCount(m - 1, k);
      assert |lower + top| == |lower| + |top|;
      assert (m - 1) * k + k == m * k;
    } else {
      assert Band(m, k) == {};
    }
  }

  /** A k-by-k board has k*k positions. */
  lemma AllCoordsCount(k: nat)
    ensures |AllCoords(k)| == k * k
  {
    assert AllCoords(k) == Band(k, k);
    BandCount(k, k);
  }

  /** Any set of in-bounds positions has at most k*k elements. */
  lemma InBoundsCount(s: set<Coord>, k: nat)
    requires forall c :: c in s ==> InBounds(c, k)
    ensures |s| <= k * k
  {
    assert s <= AllCoords(k) by {
      forall c | c in s ensures c in AllCoords(k) { assert InBounds(c, k); }
    }
    AllCoordsCount(k);
    SubsetCard(s, AllCoords(k));
  }

  lemma AddOneCard<T>(s: set<T>, x: T)
    requires x !in s
    ensures |s + {x}| == |s| + 1
  {
  }

  lemma SubsetCard<T>(a: set<T>, b: set<T>)
    requires a <= b
    ensures |a| <= |b|
  {
    assert b == a + (b - a);
  }
}
