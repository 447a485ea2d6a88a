/**
 * Worked ticks on small grids. Each lemma fixes a grid and states the whole
 * outcome of one tick, including the number of draws it consumes.
 */
module Examples {
  import opened Materials
  import opened Grid
  import opened Rules

  /** Sand above an empty cell above stone falls one row; nothing draws. */
  lemma SandFallsOntoStone(rng: Rng)
    ensures Step([[Sand], [Empty], [Stone]], rng) == Tick([[Empty], [Sand], [Stone]], 0)
  {
    var g := [[Sand], [Empty], [Stone]];
    var t := Tick(g, 0);
    assert RowsFrom(g, t, 1, rng) == t by {
      assert CellStep(g, t, 2, 0, rng) == t;
      assert RowsFrom(g, t, 2, rng) == t;
    }
    var s1 := Set(g, 0, 0, Empty);
    assert s1 == [[Empty], [Empty], [Stone]] by {
      assert s1 == g[0 := g[0][0 := Empty]];
      assert g[0][0 := Empty] == [Empty];
    }
    var s2 := Set(s1, 1, 0, Sand);
    assert s2 == [[Empty], [Sand], [Stone]] by {
      assert s2 == s1[1 := s1[1][0 := Sand]];
      assert s1[1][0 := Sand] == [Sand];
    }
    assert CellStep(g, t, 0, 0, rng) == FallStep(g, t, 0, 0) == Tick(s2, 0);
  }

  /**
   * Stone above sand above an empty cell. The sand's fall is written first;
   * then the stone, reading the original grid, swaps with the sand it still
   * sees below it, so sand is written twice and the empty cell is lost.
   */
  lemma StoneOverSandDuplicatesSand(rng: Rng)
    ensures Step([[Stone], [Sand], [Empty]], rng) == Tick([[Sand], [Stone], [Sand]], 0)
  {
    var g := [[Stone], [Sand], [Empty]];
    var t := Tick(g, 0);
    assert RowsFrom(g, t, 2, rng) == t;
    var s1 := Set(g, 1, 0, Empty);
    assert s1 == [[Stone], [Empty], [Empty]] by {
      assert s1 == g[1 := g[1][0 := Empty]];
      assert g[1][0 := Empty] == [Empty];
    }
    var s2 := Set(s1, 2, 0, Sand);
    assert s2 == [[Stone], [Empty], [Sand]] by {
      assert s2 == s1[2 := s1[2][0 := Sand]];
      assert s1[2][0 := Sand] == [Sand];
    }
    assert RowsFrom(g, t, 1, rng) == Tick(s2, 0) by {
      assert CellStep(g, t, 1, 0, rng) == FallStep(g, t, 1, 0) == Tick(s2, 0);
    }
    var s3 := Set(s2, 0, 0, Sand);
    assert s3 == [[Sand], [Empty], [Sand]] by {
      assert s3 == s2[0 := s2[0][0 := Sand]];
      assert s2[0][0 := Sand] == [Sand];
    }
    var s4 := Set(s3, 1, 0, Stone);
    assert s4 == [[Sand], [Stone], [Sand]] by {
      assert s4 == s3[1 := s3[1][0 := Stone]];
      assert s3[1][0 := Stone] == [Stone];
    }
    assert CellStep(g, Tick(s2, 0), 0, 0, rng) == FallStep(g, Tick(s2, 0), 0, 0) == Tick(s4, 0);
  }

  /** Water resting on a stone floor draws for spreading, finds no open diagonal, and stays. */
  lemma WaterOnStoneStays(rng: Rng)
    ensures Step([[Empty, Water, Empty], [Stone, Stone, Stone]], rng) ==
            Tick([[Empty, Water, Empty], [Stone, Stone, Stone]], 1)
  {
    var g := [[Empty, Water, Empty], [Stone, Stone, Stone]];
    var t := Tick(g, 0);
    assert RowsFrom(g, t, 1, rng) == t by {
      assert CellStep(g, t, 1, 0, rng) == t;
      assert CellStep(g, t, 1, 1, rng) == t;
      assert CellStep(g, t, 1, 2, rng) == t;
      assert RowFrom(g, t, 1, 0, rng) == t;
    }
    var t1 := Tick(g, 1);
    assert RowFrom(g, t, 0, 2, rng) == t;
    assert SpreadStep(g, t, 0, 1, rng) == t1;
    assert CellStep(g, t, 0, 1, rng) == t1;
    assert CellStep(g, t1, 0, 0, rng) == t1;
  }

  /** The oil of `WaterOverwritesOil` slides left into the gap, drawing once. */
  lemma OilSlidesIntoGap(rng: Rng)
    ensures CellStep([[Water, Empty, Oil], [Stone, Empty, Stone]],
                     Tick([[Water, Empty, Oil], [Stone, Empty, Stone]], 0), 0, 2, rng) ==
            Tick([[Water, Empty, Empty], [Stone, Oil, Stone]], 1)
  {
    var g := [[Water, Empty, Oil], [Stone, Empty, Stone]];
    var s1 := Set(g, 0, 2, Empty);
    assert s1 == [[Water, Empty, Empty], [Stone, Empty, Stone]] by {
      assert s1 == g[0 := g[0][2 := Empty]];
      assert g[0][2 := Empty] == [Water, Empty, Empty];
    }
    var s2 := Set(s1, 1, 1, Oil);
    assert s2 == [[Water, Empty, Empty], [Stone, Oil, Stone]] by {
      assert s2 == s1[1 := s1[1][1 := Oil]];
      assert s1[1][1 := Oil] == [Stone, Oil, Stone];
    }
    assert Slide(g, g, 0, 2, -1) == s2;
    assert SpreadStep(g, Tick(g, 0), 0, 2, rng) == Tick(s2, 1);
  }

  /**
   * The water of `WaterOverwritesOil`, reading the original grid, still sees the
   * gap open and slides right into it, over the oil, drawing once.
   */
  lemma WaterTakesGap(rng: Rng)
    ensures CellStep([[Water, Empty, Oil], [Stone, Empty, Stone]],
                     Tick([[Water, Empty, Empty], [Stone, Oil, Stone]], 1), 0, 0, rng) ==
            Tick([[Empty, Empty, Empty], [Stone, Water, Stone]], 2)
  {
    var g := [[Water, Empty, Oil], [Stone, Empty, Stone]];
    var s2 := [[Water, Empty, Empty], [Stone, Oil, Stone]];
    var s3 := Set(s2, 0, 0, Empty);
    assert s3 == [[Empty, Empty, Empty], [Stone, Oil, Stone]] by {
      assert s3 == s2[0 := s2[0][0 := Empty]];
      assert s2[0][0 := Empty] == [Empty, Empty, Empty];
    }
    var s4 := Set(s3, 1, 1, Water);
    assert s4 == [[Empty, Empty, Empty], [Stone, Water, Stone]] by {
      assert s4 == s3[1 := s3[1][1 := Water]];
      assert s3[1][1 := Water] == [Stone, Water, Stone];
    }
    assert Slide(g, s2, 0, 0, 1) == s4;
    assert SpreadStep(g, Tick(s2, 1), 0, 0, rng) == Tick(s4, 2);
  }

  /**
   * Water and oil on a stone row with one gap. The scan runs right to left, so
   * the oil slides into the gap first; the water, reading the original grid,
   * still sees the gap open and overwrites the oil there. Each draws once.
   */
  lemma WaterOverwritesOil(rng: Rng)
    ensures Step([[Water, Empty, Oil], [Stone, Empty, Stone]], rng) ==
            Tick([[Empty, Empty, Empty], [Stone, Water, Stone]], 2)
  {
    var g := [[Water, Empty, Oil], [Stone, Empty, Stone]];
    var t := Tick(g, 0);
    assert RowsFrom(g, t, 1, rng) == t by {
      assert CellStep(g, t, 1, 0, rng) == t;
      assert CellStep(g, t, 1, 1, rng) == t;
      assert CellStep(g, t, 1, 2, rng) == t;
      assert RowFrom(g, t, 1, 0, rng) == t;
    }
    var t1 := Tick([[Water, Empty, Empty], [Stone, Oil, Stone]], 1);
    OilSlidesIntoGap(rng);
    assert CellStep(g, t1, 0, 1, rng) == t1;
    WaterTakesGap(rng);
  }

  /** An offset of the scan around (0, 0) that is outside the grid or not flammable leaves the scan unchanged. */
  lemma NothingToKindle(g: Cells, st: Tick, n: nat, rng: Rng)
    requires Site(g, st.cells, 0, 0) && n < 9 && !Kindles(g, OffsetRow(n), OffsetCol(n))
    ensures IgniteUpTo(g, st, 0, 0, n + 1, rng) == IgniteUpTo(g, st, 0, 0, n, rng)
  {
    IgniteUpToStep(g, st, 0, 0, n, rng);
  }

  /** In the one-row grid of fire beside wood, the fire's 3x3 scan draws for the wood alone. */
  lemma ScanBesideWood(st: Tick, rng: Rng)
    requires SameShape(st.cells, [[Fire, Wood]])
    ensures IgniteUpTo([[Fire, Wood]], st, 0, 0, 9, rng) == IgniteAt([[Fire, Wood]], st, 0, 1, rng)
  {
    var g := [[Fire, Wood]];
    NothingToKindle(g, st, 0, rng);
    NothingToKindle(g, st, 1, rng);
    NothingToKindle(g, st, 2, rng);
    NothingToKindle(g, st, 3, rng);
    NothingToKindle(g, st, 4, rng);
    IgniteUpToStep(g, st, 0, 0, 5, rng);
    NothingToKindle(g, st, 6, rng);
    NothingToKindle(g, st, 7, rng);
    NothingToKindle(g, st, 8, rng);
  }

  /**
   * In the one-row grid of fire beside wood, a tick is the fire's chain alone:
   * the wood neither falls nor spreads, and the fire neither spreads nor
   * corrodes, so its chain is evaporation, the 3x3 scan and the smoke rule.
   */
  lemma FireBesideWoodChain(rng: Rng)
    ensures Step([[Fire, Wood]], rng) ==
            SmokeStep([[Fire, Wood]],
                      IgniteUpTo([[Fire, Wood]], EvaporateStep([[Fire, Wood]], Tick([[Fire, Wood]], 0), 0, 0, rng), 0, 0, 9, rng),
                      0, 0, rng)
  {
    var g := [[Fire, Wood]];
    var t := Tick(g, 0);
    assert RowFrom(g, t, 0, 1, rng) == t by {
      assert CellStep(g, t, 0, 1, rng) == t;
    }
    assert SpreadStep(g, t, 0, 0, rng) == t;
    var e := EvaporateStep(g, t, 0, 0, rng);
    assert CorrodeStep(g, e, 0, 0, rng) == e;
  }

  /** Fire beside wood on a one-row grid: with both draws below 0.1 the fire burns out and the wood catches fire. */
  lemma FireIgnitesWood(rng: Rng)
    requires rng(0) < 0.1 && rng(1) < 0.1
    ensures Step([[Fire, Wood]], rng) == Tick([[Empty, Fire]], 2)
  {
    var g := [[Fire, Wood]];
    FireBesideWoodChain(rng);
    var e := Set(g, 0, 0, Empty);
    assert e == [[Empty, Wood]] by {
      assert e == g[0 := g[0][0 := Empty]];
      assert g[0][0 := Empty] == [Empty, Wood];
    }
    var t1 := Tick(e, 1);
    assert EvaporateStep(g, Tick(g, 0), 0, 0, rng) == t1;
    var f := Set(e, 0, 1, Fire);
    assert f == [[Empty, Fire]] by {
      assert f == e[0 := e[0][1 := Fire]];
      assert e[0][1 := Fire] == [Empty, Fire];
    }
    ScanBesideWood(t1, rng);
    assert IgniteAt(g, t1, 0, 1, rng) == Tick(f, 2);
    assert SmokeStep(g, Tick(f, 2), 0, 0, rng) == Tick(f, 2);
  }

  /** With both draws at 0.1 or above nothing changes, and the same two draws are consumed. */
  lemma FireSparesWood(rng: Rng)
    requires rng(0) >= 0.1 && rng(1) >= 0.1
    ensures Step([[Fire, Wood]], rng) == Tick([[Fire, Wood]], 2)
  {
    var g := [[Fire, Wood]];
    FireBesideWoodChain(rng);
    var t1 := Tick(g, 1);
    assert EvaporateStep(g, Tick(g, 0), 0, 0, rng) == t1;
    ScanBesideWood(t1, rng);
    assert IgniteAt(g, t1, 0, 1, rng) == Tick(g, 2);
    assert SmokeStep(g, Tick(g, 2), 0, 0, rng) == Tick(g, 2);
  }
}
