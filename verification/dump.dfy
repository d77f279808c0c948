/** The rank, filter and number step at the end of the dump script: sort the
    extracted horizons by size, then walk them in order, writing out (and
    announcing) every horizon whose share of the footprint area reaches
    `area_share`, numbered by a counter that only survivors advance. */
module Dump {
  import opened Results
  import opened Horizons
  import opened SizeSort
  import opened CropArea
  import opened Naming

  /** The area-share test `len(h) / area >= area_share`, with `/` as exact
      division (Python raises on a zero `area`, hence the precondition). */
  predicate Passes(h: Horizon, area: int, share: real)
    requires area != 0
  {
    (Size(h) as real) / (area as real) >= share
  }

  /** For a positive area the test is a plain size threshold. */
  lemma PassesIsThreshold(h: Horizon, area: int, share: real)
    requires area > 0
    ensures Passes(h, area, share) <==> (Size(h) as real) >= share * (area as real)
  {
  }

  /** For a positive area a horizon at least as large as one that passes also passes. */
  lemma PassesMonotone(small: Horizon, large: Horizon, area: int, share: real)
    requires area > 0
    requires Size(small) <= Size(large)
    requires Passes(small, area, share)
    ensures Passes(large, area, share)
  {
    PassesIsThreshold(small, area, share);
    PassesIsThreshold(large, area, share);
  }

  /** `a` can be obtained from `b` by deleting elements. */
  predicate IsSubsequence(a: seq<Horizon>, b: seq<Horizon>)
    decreases |b|
  {
    if a == [] then true
    else if b == [] then false
    else (a[0] == b[0] && IsSubsequence(a[1..], b[1..])) || IsSubsequence(a, b[1..])
  }

  /** The horizons of `hs` that pass the test, in their order in `hs`, unchanged. */
  function Survivors(hs: seq<Horizon>, area: int, share: real): (r: seq<Horizon>)
    requires area != 0
    ensures |r| <= |hs|
    ensures IsSubsequence(r, hs)
  {
    if hs == [] then []
    else
      assert hs == [hs[0]] + hs[1..];
      var rest := Survivors(hs[1..], area, share);
      if Passes(hs[0], area, share) then
        assert ([hs[0]] + rest)[1..] == rest;
        [hs[0]] + rest
      else
        rest
  }

  /** Filtering keeps every copy of a passing horizon and no copy of a failing one. */
  lemma {:induction false} SurvivorsCount(hs: seq<Horizon>, area: int, share: real, h: Horizon)
    requires area != 0
    ensures multiset(Survivors(hs, area, share))[h] ==
            if Passes(h, area, share) then multiset(hs)[h] else 0
  {
    if hs != [] {
      SurvivorsCount(hs[1..], area, share, h);
      assert hs == [hs[0]] + hs[1..];
    }
  }

  /** A survivor passes, and a passing horizon of the list survives. */
  lemma SurvivorsAreThePassing(hs: seq<Horizon>, area: int, share: real, h: Horizon)
    requires area != 0
    ensures h in Survivors(hs, area, share) <==> h in hs && Passes(h, area, share)
  {
    SurvivorsCount(hs, area, share, h);
    assert h in multiset(Survivors(hs, area, share)) <==> h in Survivors(hs, area, share);
    assert h in multiset(hs) <==> h in hs;
  }

  /** For a positive area, if the largest horizon of a sorted list fails the
      test, nothing in the list survives. */
  lemma NoneSurviveAfterFailure(hs: seq<Horizon>, area: int, share: real)
    requires area > 0
    requires SortedDesc(hs) && hs != []
    requires !Passes(hs[0], area, share)
    ensures Survivors(hs, area, share) == []
  {
    var r := Survivors(hs, area, share);
    if r != [] {
      SurvivorsAreThePassing(hs, area, share, r[0]);
      HeadIsLargest(hs, r[0]);
      PassesMonotone(r[0], hs[0], area, share);
    }
  }

  /** For a positive area, if the largest horizon of a sorted list fails the
      test, every horizon of the list fails it. */
  lemma AllFailAfterFailure(hs: seq<Horizon>, area: int, share: real)
    requires area > 0
    requires SortedDesc(hs) && hs != []
    requires !Passes(hs[0], area, share)
    ensures forall i :: 0 <= i < |hs| ==> !Passes(hs[i], area, share)
  {
    forall i | 0 <= i < |hs| ensures !Passes(hs[i], area, share) {
      if Passes(hs[i], area, share) {
        PassesMonotone(hs[i], hs[0], area, share);
      }
    }
  }

  /** For a positive area and a list sorted by size, the survivors are a prefix
      of the list and everything after them fails the test. */
  lemma {:induction false} SurvivorsArePrefix(hs: seq<Horizon>, area: int, share: real)
    requires area > 0
    requires SortedDesc(hs)
    ensures |Survivors(hs, area, share)| <= |hs|
    ensures Survivors(hs, area, share) == hs[..|Survivors(hs, area, share)|]
    ensures forall i :: |Survivors(hs, area, share)| <= i < |hs| ==> !Passes(hs[i], area, share)
  {
    if hs != [] {
      var rest := hs[1..];
      assert SortedDesc(rest);
      if Passes(hs[0], area, share) {
        SurvivorsArePrefix(rest, area, share);
        var k := |Survivors(rest, area, share)|;
        assert Survivors(hs, area, share) == [hs[0]] + rest[..k];
        assert [hs[0]] + rest[..k] == hs[..k + 1];
        forall i | k + 1 <= i < |hs| ensures !Passes(hs[i], area, share) {
          assert hs[i] == rest[i - 1];
        }
      } else {
        NoneSurviveAfterFailure(hs, area, share);
        AllFailAfterFailure(hs, area, share);
      }
    }
  }

  /** Everything the loop does: write a horizon to a path, or print a message. */
  datatype Event = Dumped(horizon: Horizon, path: string) | Printed(message: string)

  /** The loop's state: the effects so far and the counter `ctr`. */
  datatype LoopState = LoopState(trace: seq<Event>, ctr: nat)

  /** The effects of writing out `s` with counters `base`, `base + 1`, ...:
      each horizon is written to its numbered path, then announced. */
  function Expected(dir: string, s: seq<Horizon>, base: nat): (r: seq<Event>)
    ensures |r| == 2 * |s|
  {
    if s == [] then []
    else [Dumped(s[0], HorizonPath(dir, base)), Printed(SavedMessage(base))]
         + Expected(dir, s[1..], base + 1)
  }

  /** The `i`-th horizon of `s` is written to the path numbered `base + i`,
      and the message that follows it carries the same number. */
  lemma {:induction false} ExpectedAt(dir: string, s: seq<Horizon>, base: nat, i: nat)
    requires i < |s|
    ensures Expected(dir, s, base)[2 * i] == Dumped(s[i], HorizonPath(dir, base + i))
    ensures Expected(dir, s, base)[2 * i + 1] == Printed(SavedMessage(base + i))
    decreases i
  {
    if i > 0 {
      ExpectedAt(dir, s[1..], base + 1, i - 1);
      var r := Expected(dir, s, base);
      assert r[2 * i] == Expected(dir, s[1..], base + 1)[2 * (i - 1)];
      assert r[2 * i + 1] == Expected(dir, s[1..], base + 1)[2 * (i - 1) + 1];
    }
  }

  /** Writing out `[h] + s` writes `h` with counter `base`, then `s` from `base + 1`. */
  lemma ExpectedCons(dir: string, h: Horizon, s: seq<Horizon>, base: nat)
    ensures Expected(dir, [h] + s, base)
            == [Dumped(h, HorizonPath(dir, base)), Printed(SavedMessage(base))] + Expected(dir, s, base + 1)
  {
    assert ([h] + s)[1..] == s;
  }

  /** Writing out `a + b` is writing out `a`, then `b` with the counter moved on. */
  lemma {:induction false} ExpectedAppend(dir: string, a: seq<Horizon>, b: seq<Horizon>, base: nat)
    ensures Expected(dir, a + b, base) == Expected(dir, a, base) + Expected(dir, b, base + |a|)
    decreases |a|
  {
    if a == [] {
      assert a + b == b;
    } else {
      assert (a + b)[0] == a[0];
      assert (a + b)[1..] == a[1..] + b;
      ExpectedAppend(dir, a[1..], b, base + 1);
    }
  }

  /** One iteration of the loop body for horizon `h`. */
  function Step(st: LoopState, h: Horizon, area: int, share: real, dir: string): (r: LoopState)
    requires area != 0
  {
    if Passes(h, area, share) then
      LoopState(st.trace + [Dumped(h, HorizonPath(dir, st.ctr)), Printed(SavedMessage(st.ctr))],
                st.ctr + 1)
    else st
  }

  /** An iteration on a surviving head writes it out with the current counter:
      what was owed for `hs` before it is what is owed for the tail after it. */
  lemma StepKeeps(st: LoopState, hs: seq<Horizon>, area: int, share: real, dir: string)
    requires area != 0 && hs != [] && Passes(hs[0], area, share)
    ensures Step(st, hs[0], area, share, dir).ctr == st.ctr + 1
    ensures |Survivors(hs, area, share)| == 1 + |Survivors(hs[1..], area, share)|
    ensures Step(st, hs[0], area, share, dir).trace
            + Expected(dir, Survivors(hs[1..], area, share), st.ctr + 1)
            == st.trace + Expected(dir, Survivors(hs, area, share), st.ctr)
  {
    var kept := Survivors(hs[1..], area, share);
    var written := [Dumped(hs[0], HorizonPath(dir, st.ctr)), Printed(SavedMessage(st.ctr))];
    assert Step(st, hs[0], area, share, dir).trace == st.trace + written;
    assert Survivors(hs, area, share) == [hs[0]] + kept;
    ExpectedCons(dir, hs[0], kept, st.ctr);
    assert (st.trace + written) + Expected(dir, kept, st.ctr + 1)
           == st.trace + (written + Expected(dir, kept, st.ctr + 1));
  }

  /** An iteration on a failing head changes nothing and owes nothing for it. */
  lemma StepSkips(st: LoopState, hs: seq<Horizon>, area: int, share: real, dir: string)
    requires area != 0 && hs != [] && !Passes(hs[0], area, share)
    ensures Step(st, hs[0], area, share, dir) == st
    ensures Survivors(hs, area, share) == Survivors(hs[1..], area, share)
  {
  }

  /** `for h in hs: ...` from state `st`: the survivors are written out and
      announced in order with the next counters, and the counter ends advanced
      by their number; skipped horizons leave no trace. */
  function Loop(st: LoopState, hs: seq<Horizon>, area: int, share: real, dir: string): (r: LoopState)
    requires area != 0
    ensures r.ctr == st.ctr + |Survivors(hs, area, share)|
    ensures r.trace == st.trace + Expected(dir, Survivors(hs, area, share), st.ctr)
    decreases |hs|
  {
    if hs == [] then st
    else
      var next := Step(st, hs[0], area, share, dir);
      if Passes(hs[0], area, share) then
        StepKeeps(st, hs, area, share, dir);
        Loop(next, hs[1..], area, share, dir)
      else
        StepSkips(st, hs, area, share, dir);
        Loop(next, hs[1..], area, share, dir)
  }

  /** What one run of the step leaves behind: `ds.horizons` sorted in place,
      the effects of the loop, and the final counter. */
  datatype Outcome = Outcome(sorted: seq<Horizon>, trace: seq<Event>, saved: nat)

  /** Lines 62-71 of the dump script. The sort happens first; reading the
      area raises `IndexError` for a crop with fewer than two axes; the first
      test raises `ZeroDivisionError` for a zero area. With no horizons the
      loop body never runs, so a zero area is then harmless. */
  function RankAndDump(horizons: seq<Horizon>, crop: CubeCrop, share: real, dir: string): (r: Result<Outcome>)
    ensures r.Err? <==> |crop| < 2 || (Area(crop) == Ok(0) && horizons != [])
    ensures r.Err? ==> r.error == (if |crop| < 2 then IndexError else ZeroDivisionError)
    ensures r.Ok? ==> r.value.saved <= |r.value.sorted|
    ensures r.Ok? ==> SortedDesc(r.value.sorted)
                      && multiset(r.value.sorted) == multiset(horizons)
                      && r.value.sorted == SortBySize(horizons)
    ensures r.Ok? ==>
              if Area(crop).value == 0 then r.value.trace == [] && r.value.saved == 0
              else
                var kept := Survivors(r.value.sorted, Area(crop).value, share);
                r.value.trace == Expected(dir, kept, 0) && r.value.saved == |kept|
  {
    var sorted := SortBySize(horizons);
    var area :- Area(crop);
    if area == 0 then
      if sorted == [] then Ok(Outcome(sorted, [], 0)) else Err(ZeroDivisionError)
    else
      var st := Loop(LoopState([], 0), sorted, area, share, dir);
      Ok(Outcome(sorted, st.trace, st.ctr))
  }
}

/** Properties of a whole run of the step. */
module DumpProperties {
  import opened Results
  import opened Horizons
  import opened SizeSort
  import opened CropArea
  import opened Naming
  import opened Dump

  /** Horizons that all pass the test all survive it, in place. */
  lemma AllPassingSurvive(s: seq<Horizon>, area: int, share: real)
    requires area > 0 && SortedDesc(s)
    requires forall i :: 0 <= i < |s| ==> Passes(s[i], area, share)
    ensures Survivors(s, area, share) == s
  {
    SurvivorsArePrefix(s, area, share);
  }

  /** For a positive area the written horizons are exactly the first `saved`
      horizons of the sorted list, unchanged, numbered 0, 1, ... in that
      order; each passes the test and every later horizon fails it. */
  lemma RankAndDumpWritesPrefix(horizons: seq<Horizon>, crop: CubeCrop, share: real, dir: string)
    requires Area(crop).Ok? && Area(crop).value > 0
    ensures RankAndDump(horizons, crop, share, dir).Ok?
    ensures var d := RankAndDump(horizons, crop, share, dir).value;
            && d.saved <= |d.sorted|
            && d.trace == Expected(dir, d.sorted[..d.saved], 0)
            && (forall i :: 0 <= i < d.saved ==> Passes(d.sorted[i], Area(crop).value, share))
            && (forall i :: d.saved <= i < |d.sorted| ==> !Passes(d.sorted[i], Area(crop).value, share))
  {
    var d := RankAndDump(horizons, crop, share, dir).value;
    SurvivorsArePrefix(d.sorted, Area(crop).value, share);
    forall i | 0 <= i < d.saved ensures Passes(d.sorted[i], Area(crop).value, share) {
      assert d.sorted[i] in Survivors(d.sorted, Area(crop).value, share);
      SurvivorsAreThePassing(d.sorted, Area(crop).value, share, d.sorted[i]);
    }
  }

  /** Within one run, no two written horizons share a path and no two
      progress messages are alike. */
  lemma WrittenNamesDistinct(dir: string, s: seq<Horizon>, i: nat, j: nat)
    requires i < j < |s|
    ensures Expected(dir, s, 0)[2 * i].Dumped? && Expected(dir, s, 0)[2 * j].Dumped?
    ensures Expected(dir, s, 0)[2 * i].path != Expected(dir, s, 0)[2 * j].path
    ensures Expected(dir, s, 0)[2 * i + 1].Printed? && Expected(dir, s, 0)[2 * j + 1].Printed?
    ensures Expected(dir, s, 0)[2 * i + 1].message != Expected(dir, s, 0)[2 * j + 1].message
  {
    ExpectedAt(dir, s, 0, i);
    ExpectedAt(dir, s, 0, j);
    HorizonPathInjective(dir, i, j);
    SavedMessageInjective(i, j);
  }

  /** A sorted list that passes the test throughout is written out whole,
      in its own order. */
  lemma RankAndDumpKeepsPassingSorted(s: seq<Horizon>, crop: CubeCrop, share: real, dir: string)
    requires Area(crop).Ok? && Area(crop).value > 0
    requires SortedDesc(s)
    requires forall i :: 0 <= i < |s| ==> Passes(s[i], Area(crop).value, share)
    ensures RankAndDump(s, crop, share, dir) == Ok(Outcome(s, Expected(dir, s, 0), |s|))
  {
    SortIdempotent(s);
    AllPassingSurvive(s, Area(crop).value, share);
  }

  /** Running the step again on the horizons it wrote, in the order it wrote
      them, sorts nothing, drops nothing and writes the same files with the
      same numbers. */
  lemma RankAndDumpIdempotent(horizons: seq<Horizon>, crop: CubeCrop, share: real, dir: string)
    requires Area(crop).Ok? && Area(crop).value > 0
    ensures var d := RankAndDump(horizons, crop, share, dir).value;
            var again := d.sorted[..d.saved];
            RankAndDump(again, crop, share, dir) == Ok(Outcome(again, d.trace, d.saved))
  {
    RankAndDumpWritesPrefix(horizons, crop, share, dir);
    var d := RankAndDump(horizons, crop, share, dir).value;
    var again := d.sorted[..d.saved];
    assert SortedDesc(again);
    assert forall i :: 0 <= i < |again| ==> again[i] == d.sorted[i];
    RankAndDumpKeepsPassingSorted(again, crop, share, dir);
  }

  /** A single-column horizon in a 10 x 10 footprint covers 1/100 of it, so
      an area share of 0.5 drops it: nothing is written or printed. */
  lemma SingleColumnDropped()
    ensures var h := Horizon([Point(0, 0, 0)]);
            RankAndDump([h], [Bounds(0, 10), Bounds(0, 10), Bounds(0, 5)], 0.5, "out")
            == Ok(Outcome([h], [], 0))
  {
    var h := Horizon([Point(0, 0, 0)]);
    assert SortBySize([h]) == [h];
    assert !Passes(h, 100, 0.5);
    assert Survivors([h], 100, 0.5) == [];
    assert Expected("out", [], 0) == [];
  }

  /** The same horizon at an area share of 0.001 is written as `Horizon_0`
      and announced as `Horizont 0 is saved`. */
  lemma SingleColumnWritten()
    ensures var h := Horizon([Point(0, 0, 0)]);
            RankAndDump([h], [Bounds(0, 10), Bounds(0, 10), Bounds(0, 5)], 0.001, "out")
            == Ok(Outcome([h], [Dumped(h, "out/Horizon_0"), Printed("Horizont 0 is saved")], 1))
  {
    var h := Horizon([Point(0, 0, 0)]);
    assert SortBySize([h]) == [h];
    assert Passes(h, 100, 0.001);
    assert Survivors([h], 100, 0.001) == [h];
    assert Decimal(0) == "0";
    assert HorizonPath("out", 0) == "out/Horizon_0";
    assert SavedMessage(0) == "Horizont 0 is saved";
    assert Expected("out", [h], 0) ==
           [Dumped(h, "out/Horizon_0"), Printed("Horizont 0 is saved")] + Expected("out", [], 1);
    var st := Loop(LoopState([], 0), [h], 100, 0.001, "out");
    assert st.trace == [Dumped(h, "out/Horizon_0"), Printed("Horizont 0 is saved")];
  }
}
