/**
  The query contract of `Palette` as src/palette.test.ts pins it down: a
  palette is built once from a list of swatches and then only queried for its
  dominant swatch and for its top swatches by population.
*/
module Palettes {
  import opened Js
  import opened Colors

  /** The pixel coordinate of a swatch. */
  datatype Position = Position(x: int, y: int)

  /** One extracted colour with its population and position. */
  datatype Swatch = Swatch(color: Color, population: nat, position: Position)

  /** `new Palette(swatches)`: any list of swatches makes a palette. */
  datatype Palette = Palette(swatches: seq<Swatch>)

  /** The first swatch of largest population. */
  function Dominant(s: seq<Swatch>): (d: Swatch)
    requires |s| > 0
    ensures d in s
    ensures forall w :: w in s ==> w.population <= d.population
  {
    if |s| == 1 then s[0]
    else
      var rest := Dominant(s[1..]);
      if s[0].population >= rest.population then s[0] else rest
  }

  /**
    `getDominantSwatch()`: the swatch of largest population, unchanged with
    its colour and position; none for an empty palette.
  */
  function GetDominantSwatch(p: Palette): (r: Option<Swatch>)
    ensures r.None? <==> |p.swatches| == 0
    ensures r.Some? ==>
      r.value in p.swatches &&
      forall w :: w in p.swatches ==> w.population <= r.value.population
  {
    if |p.swatches| == 0 then None else Some(Dominant(p.swatches))
  }

  /** Descending by population. */
  predicate SortedByPopulation(s: seq<Swatch>) {
    forall i, j :: 0 <= i < j < |s| ==> s[i].population >= s[j].population
  }

  /** Puts `x` before the first swatch that is not more populous. */
  function Insert(x: Swatch, sorted: seq<Swatch>): (r: seq<Swatch>)
    requires SortedByPopulation(sorted)
    ensures SortedByPopulation(r)
    ensures multiset(r) == multiset(sorted) + multiset{x}
    ensures |r| == |sorted| + 1
  {
    SortedRest(sorted);
    if sorted == [] || x.population >= sorted[0].population then
      ConsSorted(x, sorted);
      [x] + sorted
    else
      var tail := Insert(x, sorted[1..]);
      assert sorted == [sorted[0]] + sorted[1..];
      InsertBelow(x, sorted[1..], tail, sorted[0].population);
      ConsSorted(sorted[0], tail);
      [sorted[0]] + tail
  }

  /** The rest of a sorted list is sorted and none of it is above its head. */
  lemma SortedRest(sorted: seq<Swatch>)
    requires SortedByPopulation(sorted)
    ensures sorted != [] ==>
      SortedByPopulation(sorted[1..]) &&
      forall w :: w in sorted[1..] ==> w.population <= sorted[0].population
  {
  }

  /** A head no less populous than every swatch of a sorted tail keeps it sorted. */
  lemma ConsSorted(head: Swatch, tail: seq<Swatch>)
    requires SortedByPopulation(tail)
    requires forall i :: 0 <= i < |tail| ==> tail[i].population <= head.population
    ensures SortedByPopulation([head] + tail)
  {
  }

  /** Every swatch of `tail` came from `rest` or is `x`, so none is above `bound`. */
  lemma InsertBelow(x: Swatch, rest: seq<Swatch>, tail: seq<Swatch>, bound: nat)
    requires multiset(tail) == multiset(rest) + multiset{x}
    requires x.population <= bound && forall w :: w in rest ==> w.population <= bound
    ensures forall i :: 0 <= i < |tail| ==> tail[i].population <= bound
  {
    forall i | 0 <= i < |tail|
      ensures tail[i].population <= bound
    {
      assert tail[i] in multiset(tail);
      assert tail[i] in multiset(rest) || tail[i] == x;
    }
  }

  /** The swatches ranked by descending population, ties in their list order. */
  function Ranked(s: seq<Swatch>): (r: seq<Swatch>)
    ensures SortedByPopulation(r)
    ensures multiset(r) == multiset(s)
  {
    if s == [] then []
    else
      assert s == [s[0]] + s[1..];
      Insert(s[0], Ranked(s[1..]))
  }

  /**
    `findSwatches(limit)`: a `TypeError` for a limit of 0 or less, otherwise
    the `min(limit, size)` most populous swatches, most populous first.
  */
  function FindSwatches(p: Palette, limit: int): (r: Result<seq<Swatch>>)
    ensures r.Err? <==> limit <= 0
    ensures r.Err? ==> r.error == TypeError
    ensures r.Ok? ==>
      |r.value| == (if limit < |p.swatches| then limit else |p.swatches|) &&
      SortedByPopulation(r.value) &&
      multiset(r.value) <= multiset(p.swatches)
  {
    if limit <= 0 then Err(TypeError)
    else
      var ranked := Ranked(p.swatches);
      assert |ranked| == |multiset(ranked)| == |p.swatches|;
      var n := if limit < |ranked| then limit else |ranked|;
      assert ranked == ranked[..n] + ranked[n..];
      assert multiset(ranked) == multiset(ranked[..n]) + multiset(ranked[n..]);
      Ok(ranked[..n])
  }

  /** A swatch left out by `findSwatches` is no more populous than any it returns. */
  lemma FindSwatchesKeepsMostPopulous(p: Palette, limit: int, w: Swatch, i: nat)
    requires limit > 0 && i < |FindSwatches(p, limit).value|
    requires w in multiset(p.swatches) - multiset(FindSwatches(p, limit).value)
    ensures w.population <= FindSwatches(p, limit).value[i].population
  {
    var ranked := Ranked(p.swatches);
    assert |ranked| == |multiset(ranked)| == |p.swatches|;
    var n := |FindSwatches(p, limit).value|;
    assert FindSwatches(p, limit).value == ranked[..n];
    PrefixKeepsMostPopulous(ranked, n, w, i);
  }

  /** A swatch left out of a prefix of a ranking is no more populous than any swatch in it. */
  lemma PrefixKeepsMostPopulous(ranked: seq<Swatch>, n: nat, w: Swatch, i: nat)
    requires SortedByPopulation(ranked) && i < n <= |ranked|
    requires w in multiset(ranked) - multiset(ranked[..n])
    ensures w.population <= ranked[i].population
  {
    assert ranked == ranked[..n] + ranked[n..];
    assert multiset(ranked) == multiset(ranked[..n]) + multiset(ranked[n..]);
    assert w in multiset(ranked[n..]);
    var j :| 0 <= j < |ranked[n..]| && ranked[n..][j] == w;
    assert ranked[n + j] == w;
  }

  /** The most populous swatch comes first in the ranking and is the dominant one. */
  lemma {:induction false} RankedHeadIsDominant(s: seq<Swatch>)
    requires |s| > 0
    ensures |Ranked(s)| > 0 && Ranked(s)[0] == Dominant(s)
  {
    assert |Ranked(s)| == |multiset(s)| == |s|;
    if |s| > 1 {
      RankedHeadIsDominant(s[1..]);
      InsertHead(s[0], Ranked(s[1..]));
    }
  }

  lemma InsertHead(x: Swatch, sorted: seq<Swatch>)
    requires SortedByPopulation(sorted) && |sorted| > 0
    ensures Insert(x, sorted)[0] == if x.population >= sorted[0].population then x else sorted[0]
  {
  }

  /** With a positive limit, the first swatch found is the dominant one. */
  lemma FindSwatchesStartsWithDominant(p: Palette, limit: int)
    requires limit > 0 && |p.swatches| > 0
    ensures FindSwatches(p, limit).value[0] == GetDominantSwatch(p).value
  {
    RankedHeadIsDominant(p.swatches);
  }

  /**
    The swatches of the tests (populations 64, 128 and 48): the dominant one
    is the second, unchanged, a limit of 0 is refused, and a limit above the
    size returns every swatch.
  */
  lemma PaletteExamples(red: Color, white: Color, pink: Color)
    ensures var p := Palette([
        Swatch(red, 64, Position(45, 30)),
        Swatch(white, 128, Position(18, 72)),
        Swatch(pink, 48, Position(9, 54))]);
      GetDominantSwatch(p) == Some(Swatch(white, 128, Position(18, 72))) &&
      FindSwatches(p, 0) == Err(TypeError) &&
      |FindSwatches(p, 1024).value| == 3 &&
      |FindSwatches(p, 2).value| == 2
  {
    var p := Palette([
      Swatch(red, 64, Position(45, 30)),
      Swatch(white, 128, Position(18, 72)),
      Swatch(pink, 48, Position(9, 54))]);
    assert p.swatches[1..][1..] == [p.swatches[2]];
  }
}
