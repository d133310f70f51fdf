/** `GetRandomMapLocation`: draw a random cell of the map until one is in
    bounds and standable. The source retries by recursion with no bound; the
    model runs the retries over a finite stream of raw draws, so it states
    what a returned cell satisfies (partial correctness) and reports
    `OutOfDraws` where the source would still be retrying. */
module Location {
  import opened World

  /** The cell one attempt draws: `Rand.Range(0, width)` and
      `Rand.Range(0, height)` from the attempt's two raw draws. */
  function DrawnCell(m: MapGrid, raw: (nat, nat)): (c: Cell)
    ensures m.width > 0 ==> 0 <= c.x < m.width
    ensures m.height > 0 ==> 0 <= c.z < m.height
  {
    Cell(RandRange(0, m.width, raw.0), RandRange(0, m.height, raw.1))
  }

  datatype Located = Located(cell: Cell, drawsUsed: nat) | OutOfDraws

  /** The recursion of the source, one attempt per element of `draws`: the
      first drawn cell that is valid, with the number of attempts it took. */
  function Search(m: MapGrid, draws: seq<(nat, nat)>): (r: Located)
    ensures r.Located? ==>
      && 1 <= r.drawsUsed <= |draws|
      && r.cell == DrawnCell(m, draws[r.drawsUsed - 1])
      && ValidLocation(m, r.cell)
      && forall i :: 0 <= i < r.drawsUsed - 1 ==> !ValidLocation(m, DrawnCell(m, draws[i]))
    ensures r.OutOfDraws? <==> forall i :: 0 <= i < |draws| ==> !ValidLocation(m, DrawnCell(m, draws[i]))
  {
    if |draws| == 0 then OutOfDraws
    else
      var c := DrawnCell(m, draws[0]);
      if InBounds(m, c) && Standable(m, c) then Located(c, 1)
      else
        match Search(m, draws[1..])
        case Located(cell, n) => Located(cell, n + 1)
        case OutOfDraws => OutOfDraws
  }

  /** The first valid draw decides the search. */
  lemma {:induction false} SearchFirstValid(m: MapGrid, draws: seq<(nat, nat)>, k: nat)
    requires k < |draws|
    requires ValidLocation(m, DrawnCell(m, draws[k]))
    requires forall i :: 0 <= i < k ==> !ValidLocation(m, DrawnCell(m, draws[i]))
    ensures Search(m, draws) == Located(DrawnCell(m, draws[k]), k + 1)
  {
    if k > 0 {
      SearchFirstValid(m, draws[1..], k - 1);
    }
  }

  /** The retry loop over the draws. */
  method GetRandomMapLocation(m: MapGrid, draws: seq<(nat, nat)>) returns (r: Located)
    ensures r == Search(m, draws)
    ensures r.Located? ==> ValidLocation(m, r.cell)
  {
    var i := 0;
    while i < |draws|
      invariant 0 <= i <= |draws|
      invariant forall j :: 0 <= j < i ==> !ValidLocation(m, DrawnCell(m, draws[j]))
    {
      var randomX := RandRange(0, m.width, draws[i].0);
      var randomZ := RandRange(0, m.height, draws[i].1);
      var randomLocation := Cell(randomX, randomZ);
      if InBounds(m, randomLocation) && Standable(m, randomLocation) {
        SearchFirstValid(m, draws, i);
        return Located(randomLocation, i + 1);
      }
      i := i + 1;
    }
    return OutOfDraws;
  }

  /** On a map of positive size every drawn cell is in bounds, so validity
      comes down to standability. */
  lemma DrawsInBounds(m: MapGrid, raw: (nat, nat))
    requires m.width > 0 && m.height > 0
    ensures InBounds(m, DrawnCell(m, raw))
    ensures ValidLocation(m, DrawnCell(m, raw)) <==> Standable(m, DrawnCell(m, raw))
  {
  }

  /** Every cell of the map can be drawn. */
  lemma EveryCellDrawable(m: MapGrid, c: Cell)
    requires InBounds(m, c)
    ensures DrawnCell(m, (c.x, c.z)) == c
  {
  }

  /** With no standable cell in bounds the search never returns a cell,
      however many attempts it makes. */
  lemma NoStandableNeverFound(m: MapGrid, draws: seq<(nat, nat)>)
    requires forall c :: c in m.standable ==> !InBounds(m, c)
    ensures Search(m, draws) == OutOfDraws
  {
  }

  /** With exactly one standable cell, the search returns that cell as soon
      as it is drawn. */
  lemma SingleStandableFound(m: MapGrid, c: Cell, draws: seq<(nat, nat)>, k: nat)
    requires m.standable == {c} && InBounds(m, c)
    requires k < |draws| && DrawnCell(m, draws[k]) == c
    ensures Search(m, draws).Located? && Search(m, draws).cell == c
    ensures Search(m, draws).drawsUsed <= k + 1
  {
  }
}
