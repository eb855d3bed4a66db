/**
 * The startup code that fills the list of gems (app.js): five gems, the
 * first placed unconditionally, every later one redrawn until the
 * acceptance test passes. The test as the source writes it lets a gem land
 * on a tile an earlier gem already holds; the corrected test, the one the
 * engine's own re-placement uses, does not.
 */
module Seeding {
  import opened Wrappers
  import opened Board

  const GemNum: int := 5

  /** Which acceptance test the seeding loop applies. */
  datatype Rule = AsWritten | NoOverlap

  /** The test as written: some earlier gem differs from the new one in both x and y. */
  predicate AcceptedAsWritten(c: Cell, placed: seq<Cell>)
  {
    exists j :: 0 <= j < |placed| && c.x != placed[j].x && c.y != placed[j].y
  }

  /** The intended test: no earlier gem holds the new gem's tile. */
  predicate AcceptedFree(c: Cell, placed: seq<Cell>)
  {
    c !in placed
  }

  predicate Accepts(rule: Rule, c: Cell, placed: seq<Cell>)
  {
    match rule
    case AsWritten => AcceptedAsWritten(c, placed)
    case NoOverlap => AcceptedFree(c, placed)
  }

  /** The first draw at or after `from` that the test accepts, or |supply| if none is. */
  function NextAccepted(rule: Rule, supply: seq<GemDraw>, from: nat, placed: seq<Cell>): (k: nat)
    requires from <= |supply|
    ensures from <= k <= |supply|
    ensures forall j :: from <= j < k ==> !Accepts(rule, supply[j].Spot(), placed)
    ensures k < |supply| ==> Accepts(rule, supply[k].Spot(), placed)
    decreases |supply| - from
  {
    if from == |supply| then from
    else if Accepts(rule, supply[from].Spot(), placed) then from
    else NextAccepted(rule, supply, from + 1, placed)
  }

  /** The accepted draws, and how many draws of the supply the loop consumed. */
  datatype Seeded = Seeded(picked: seq<GemDraw>, used: nat)

  /** The seeding loop from draw `from` on, with `n` gems still to place; None if the supply runs out first. */
  function SeedFrom(rule: Rule, supply: seq<GemDraw>, from: nat, picked: seq<GemDraw>, n: nat): Option<Seeded>
    requires from <= |supply|
    decreases n
  {
    if n == 0 then Some(Seeded(picked, from))
    else if picked == [] then
      if from == |supply| then None else SeedFrom(rule, supply, from + 1, [supply[from]], n - 1)
    else
      var k := NextAccepted(rule, supply, from, GemSpots(picked));
      if k == |supply| then None else SeedFrom(rule, supply, k + 1, picked + [supply[k]], n - 1)
  }

  function Seed(rule: Rule, supply: seq<GemDraw>): Option<Seeded>
  {
    SeedFrom(rule, supply, 0, [], GemNum)
  }

  /** Every gem after the first passed the test against the gems placed before it. */
  ghost predicate EachAccepted(rule: Rule, picked: seq<GemDraw>)
  {
    forall k :: 1 <= k < |picked| ==> Accepts(rule, picked[k].Spot(), GemSpots(picked[..k]))
  }

  ghost predicate SpotsDistinct(ds: seq<GemDraw>)
  {
    forall i, j :: 0 <= i < j < |ds| ==> ds[i].Spot() != ds[j].Spot()
  }

  /** Appending a gem that the rule accepts against all before it keeps EachAccepted. */
  lemma AcceptedAppend(rule: Rule, picked: seq<GemDraw>, d: GemDraw)
    requires picked != [] && EachAccepted(rule, picked)
    requires Accepts(rule, d.Spot(), GemSpots(picked))
    ensures EachAccepted(rule, picked + [d])
  {
    var next := picked + [d];
    forall j | 1 <= j < |next|
      ensures Accepts(rule, next[j].Spot(), GemSpots(next[..j]))
    {
      if j < |picked| {
        assert next[..j] == picked[..j];
      } else {
        assert next[..j] == picked;
      }
    }
  }

  ghost predicate SoundResult(supply: seq<GemDraw>, from: nat, picked: seq<GemDraw>, n: nat, rule: Rule, r: Seeded)
  {
    && |r.picked| == |picked| + n
    && r.picked[..|picked|] == picked
    && from <= r.used <= |supply|
    && EachAccepted(rule, r.picked)
    && (forall d <- r.picked :: d in supply)
  }

  /** A sound result for the picks extended by d, from a later draw on, is sound for the picks themselves. */
  lemma SoundAfter(supply: seq<GemDraw>, from: nat, at: nat, picked: seq<GemDraw>, d: GemDraw, n: nat, rule: Rule, r: Seeded)
    requires from <= at && SoundResult(supply, at, picked + [d], n, rule, r)
    ensures SoundResult(supply, from, picked, n + 1, rule, r)
  {
    assert r.picked[..|picked|] == r.picked[..|picked| + 1][..|picked|];
  }

  /** Whatever the seeding loop returns from any point on is sound: the picks so far extended by accepted draws of the supply. */
  lemma {:induction false} SeedFromSound(rule: Rule, supply: seq<GemDraw>, from: nat, picked: seq<GemDraw>, n: nat)
    requires from <= |supply|
    requires EachAccepted(rule, picked)
    requires forall d <- picked :: d in supply
    ensures SeedFrom(rule, supply, from, picked, n).Some? ==>
      SoundResult(supply, from, picked, n, rule, SeedFrom(rule, supply, from, picked, n).value)
    decreases n, 1
  {
    if n > 0 {
      if picked == [] {
        SeedFirstSound(rule, supply, from, n);
      } else {
        SeedLaterSound(rule, supply, from, picked, n);
      }
    }
  }

  /** The first gem takes the next draw as it is. */
  lemma {:induction false} SeedFirstSound(rule: Rule, supply: seq<GemDraw>, from: nat, n: nat)
    requires from <= |supply| && 0 < n
    ensures SeedFrom(rule, supply, from, [], n).Some? ==>
      SoundResult(supply, from, [], n, rule, SeedFrom(rule, supply, from, [], n).value)
    decreases n, 0
  {
    if from < |supply| {
      assert [] + [supply[from]] == [supply[from]];
      SeedFromSound(rule, supply, from + 1, [supply[from]], n - 1);
      var r := SeedFrom(rule, supply, from + 1, [supply[from]], n - 1);
      assert SeedFrom(rule, supply, from, [], n) == r;
      if r.Some? {
        SoundAfter(supply, from, from + 1, [], supply[from], n - 1, rule, r.value);
      }
    }
  }

  /** The picks extended by the next accepted draw are still each accepted and still drawn from the supply. */
  lemma NextPicksSound(rule: Rule, supply: seq<GemDraw>, from: nat, picked: seq<GemDraw>)
    requires from <= |supply| && picked != []
    requires EachAccepted(rule, picked)
    requires forall d <- picked :: d in supply
    requires NextAccepted(rule, supply, from, GemSpots(picked)) < |supply|
    ensures var next := picked + [supply[NextAccepted(rule, supply, from, GemSpots(picked))]];
      EachAccepted(rule, next) && forall d <- next :: d in supply
  {
    var k := NextAccepted(rule, supply, from, GemSpots(picked));
    AcceptedAppend(rule, picked, supply[k]);
  }

  /** A later gem takes the next draw the rule accepts. */
  lemma {:induction false} SeedLaterSound(rule: Rule, supply: seq<GemDraw>, from: nat, picked: seq<GemDraw>, n: nat)
    requires from <= |supply| && 0 < n && picked != []
    requires EachAccepted(rule, picked)
    requires forall d <- picked :: d in supply
    ensures SeedFrom(rule, supply, from, picked, n).Some? ==>
      SoundResult(supply, from, picked, n, rule, SeedFrom(rule, supply, from, picked, n).value)
    decreases n, 0
  {
    var k := NextAccepted(rule, supply, from, GemSpots(picked));
    if k < |supply| {
      var next := picked + [supply[k]];
      NextPicksSound(rule, supply, from, picked);
      SeedFromSound(rule, supply, k + 1, next, n - 1);
      var r := SeedFrom(rule, supply, k + 1, next, n - 1);
      assert SeedFrom(rule, supply, from, picked, n) == r;
      if r.Some? {
        SoundAfter(supply, from, k + 1, picked, supply[k], n - 1, rule, r.value);
      }
    }
  }

  /**
   * What the seeding delivers when it finishes: five gems, drawn from the
   * supply, each accepted by the rule against the gems before it.
   */
  lemma SeedSound(rule: Rule, supply: seq<GemDraw>)
    ensures var r := Seed(rule, supply);
      r.Some? ==>
        && |r.value.picked| == GemNum
        && r.value.used <= |supply|
        && EachAccepted(rule, r.value.picked)
        && (forall d <- r.value.picked :: d in supply)
  {
    SeedFromSound(rule, supply, 0, [], GemNum);
  }

  /** With the corrected test no two seeded gems share a tile. */
  lemma SeedNoOverlapDistinct(supply: seq<GemDraw>)
    requires Seed(NoOverlap, supply).Some?
    ensures SpotsDistinct(Seed(NoOverlap, supply).value.picked)
  {
    SeedSound(NoOverlap, supply);
    var p := Seed(NoOverlap, supply).value.picked;
    forall i, j | 0 <= i < j < |p|
      ensures p[i].Spot() != p[j].Spot()
    {
      assert p[j].Spot() !in GemSpots(p[..j]);
      assert GemSpots(p[..j])[i] == p[i].Spot();
    }
  }

  /**
   * With the test as written, five draws that all pass it put the third
   * gem on the first gem's tile: the third differs from the second gem in
   * both coordinates, which is all the test asks.
   */
  lemma AsWrittenStacksGems()
    ensures var supply := [GemDraw(0, 1, 0), GemDraw(1, 2, 1), GemDraw(2, 1, 0), GemDraw(0, 3, 2), GemDraw(1, 4, 3)];
      && Seed(AsWritten, supply) == Some(Seeded(supply, 5))
      && supply[2].Spot() == supply[0].Spot()
  {
    var d0, d1, d2, d3, d4 := GemDraw(0, 1, 0), GemDraw(1, 2, 1), GemDraw(2, 1, 0), GemDraw(0, 3, 2), GemDraw(1, 4, 3);
    var supply := [d0, d1, d2, d3, d4];
    assert GemSpots([d0]) == [Cell(0, 63)];
    assert GemSpots([d0, d1]) == [Cell(0, 63), Cell(101, 146)];
    assert GemSpots([d0, d1, d2]) == [Cell(0, 63), Cell(101, 146), Cell(0, 63)];
    assert GemSpots([d0, d1, d2, d3]) == [Cell(0, 63), Cell(101, 146), Cell(0, 63), Cell(202, 229)];
    assert d2.Spot() == d0.Spot() == Cell(0, 63);
    // each candidate differs in both coordinates from the gem just before it
    assert AcceptedAsWritten(d1.Spot(), GemSpots([d0])) by { assert GemSpots([d0])[0] == Cell(0, 63); }
    assert AcceptedAsWritten(d2.Spot(), GemSpots([d0, d1])) by { assert GemSpots([d0, d1])[1] == Cell(101, 146); }
    assert AcceptedAsWritten(d3.Spot(), GemSpots([d0, d1, d2])) by { assert GemSpots([d0, d1, d2])[0] == Cell(0, 63); }
    assert AcceptedAsWritten(d4.Spot(), GemSpots([d0, d1, d2, d3])) by { assert GemSpots([d0, d1, d2, d3])[0] == Cell(0, 63); }
    calc {
      Seed(AsWritten, supply);
      SeedFrom(AsWritten, supply, 1, [d0], 4);
      { assert NextAccepted(AsWritten, supply, 1, GemSpots([d0])) == 1; assert [d0] + [supply[1]] == [d0, d1]; }
      SeedFrom(AsWritten, supply, 2, [d0, d1], 3);
      { assert NextAccepted(AsWritten, supply, 2, GemSpots([d0, d1])) == 2; assert [d0, d1] + [supply[2]] == [d0, d1, d2]; }
      SeedFrom(AsWritten, supply, 3, [d0, d1, d2], 2);
      { assert NextAccepted(AsWritten, supply, 3, GemSpots([d0, d1, d2])) == 3; assert [d0, d1, d2] + [supply[3]] == [d0, d1, d2, d3]; }
      SeedFrom(AsWritten, supply, 4, [d0, d1, d2, d3], 1);
      { assert NextAccepted(AsWritten, supply, 4, GemSpots([d0, d1, d2, d3])) == 4; assert [d0, d1, d2, d3] + [supply[4]] == supply; }
      SeedFrom(AsWritten, supply, 5, supply, 0);
    }
  }

  /** The inner scan over the gems placed so far. */
  method ScanAccepts(rule: Rule, c: Cell, placed: seq<Cell>) returns (accept: bool)
    ensures accept == Accepts(rule, c, placed)
  {
    match rule {
      case AsWritten =>
        accept := false;
        var j := 0;
        while j < |placed|
          invariant 0 <= j <= |placed|
          invariant !accept ==> forall m :: 0 <= m < j ==> c.x == placed[m].x || c.y == placed[m].y
          invariant accept ==> AcceptedAsWritten(c, placed)
        {
          if c.x != placed[j].x && c.y != placed[j].y {
            accept := true;
            break;
          }
          j := j + 1;
        }
      case NoOverlap =>
        var clash := false;
        for j := 0 to |placed|
          invariant clash <==> c in placed[..j]
        {
          assert placed[..j + 1] == placed[..j] + [placed[j]];
          if placed[j] == c {
            clash := true;
          }
        }
        assert placed[..|placed|] == placed;
        accept := !clash;
    }
  }

  /**
   * The do-while for one gem after the first: scan the candidate against the
   * gems placed so far and redraw it until the scan accepts. `ok` is false
   * when the supply ran out first.
   */
  method RedrawUntilAccepted(rule: Rule, supply: seq<GemDraw>, first: nat, candidate: GemDraw, placed: seq<GemDraw>)
      returns (accepted: GemDraw, used: nat, ok: bool)
    requires first < |supply| && candidate == supply[first]
    ensures var k := NextAccepted(rule, supply, first, GemSpots(placed));
      && used <= |supply|
      && ok == (k < |supply|)
      && (ok ==> used == k + 1 && accepted == supply[k])
  {
    accepted, used := candidate, first + 1;
    var added := false;
    while !added
      invariant first < used <= |supply| && accepted == supply[used - 1]
      invariant !added ==>
        NextAccepted(rule, supply, first, GemSpots(placed)) == NextAccepted(rule, supply, used - 1, GemSpots(placed))
      invariant added ==> NextAccepted(rule, supply, first, GemSpots(placed)) == used - 1
      decreases |supply| - used, if added then 0 else 1
    {
      added := ScanAccepts(rule, accepted.Spot(), GemSpots(placed));
      if !added {
        if used == |supply| {
          ok := false;
          return;
        }
        accepted := supply[used];
        used := used + 1;
      }
    }
    ok := true;
  }

  /**
   * One turn of the seeding loop with n gems still to place: a candidate is
   * drawn; the first gem keeps it, a later one is redrawn until the scan
   * accepts it. `ok` is false when the supply ran out first.
   */
  method SeedOne(rule: Rule, supply: seq<GemDraw>, from: nat, picked: seq<GemDraw>, ghost n: nat)
      returns (picked': seq<GemDraw>, used: nat, ok: bool)
    requires from <= |supply| && 0 < n
    ensures used <= |supply|
    ensures ok ==> from < used && |picked'| == |picked| + 1
    ensures ok ==> SeedFrom(rule, supply, from, picked, n) == SeedFrom(rule, supply, used, picked', n - 1)
    ensures !ok ==> SeedFrom(rule, supply, from, picked, n) == None
  {
    picked', used, ok := picked, from, false;
    if from == |supply| {
      return;
    }
    var candidate := supply[from];
    if |picked| == 0 {
      picked', used, ok := [candidate], from + 1, true;
    } else {
      var accepted;
      accepted, used, ok := RedrawUntilAccepted(rule, supply, from, candidate, picked);
      picked' := picked + [accepted];
    }
  }

  /**
   * The seeding loop: for each of the five gems draw a candidate; the first
   * is kept as it is, each later one is redrawn until the scan accepts it.
   * `ok` is false when the supply of draws ran out first.
   */
  method SeedGems(rule: Rule, supply: seq<GemDraw>) returns (picked: seq<GemDraw>, used: nat, ok: bool)
    ensures used <= |supply|
    ensures ok <==> Seed(rule, supply).Some?
    ensures ok ==> Seed(rule, supply) == Some(Seeded(picked, used))
  {
    picked, used, ok := [], 0, true;
    ghost var goal := Seed(rule, supply);
    var i := 0;
    while i < GemNum
      invariant 0 <= i <= GemNum && |picked| == i
      invariant used <= |supply|
      invariant goal == SeedFrom(rule, supply, used, picked, GemNum - i)
    {
      picked, used, ok := SeedOne(rule, supply, used, picked, GemNum - i);
      if !ok {
        return;
      }
      i := i + 1;
    }
  }
}
