/**
 Worked cases of the dashboard's behaviour: ties in the extremes, a full
 record, the progress cap, and the place of `'∞'` in the ETA orders.
 */
module Scenarios {
  import opened SpendMath
  import opened Garages
  import opened MondelloApp

  /** A repeated highest spend is reported on its first day, a repeated lowest on its last. */
  lemma TiesInExtremes()
    ensures HighestDay([5.0, 10.0, 3.0, 10.0, 1.0]) == 2
    ensures LowestDay([5.0, 1.0, 3.0, 1.0, 7.0]) == 4
  {
    var s := [5.0, 10.0, 3.0, 10.0, 1.0];
    assert s[1] == 10.0 && s[0] < 10.0;
    var t := [5.0, 1.0, 3.0, 1.0, 7.0];
    assert t[3] == 1.0 && t[4] > 1.0;
  }

  /** 600 spent of 1000 over three days of weight 1: average 200, 60%, two more days. */
  lemma ThreeDayRecord()
    ensures var stats := CalculateStats([Garage("G", "A", [100.0, 200.0, 300.0])], 1000.0, [1.0, 1.0, 1.0]);
            stats[0].total == 600.0
            && stats[0].average == 200.0
            && stats[0].progressPercent == 60.0
            && stats[0].estDaysToTarget == Days(2)
  {
    var spend := [100.0, 200.0, 300.0];
    assert Sum([100.0]) == 100.0 by { assert [100.0][..0] == []; }
    assert Sum([100.0, 200.0]) == 300.0 by { assert [100.0, 200.0][..1] == [100.0]; }
    assert Sum(spend) == 600.0 by { assert spend[..2] == [100.0, 200.0]; }
    var weights := [1.0, 1.0, 1.0];
    assert Sum([1.0]) == 1.0 by { assert [1.0][..0] == []; }
    assert Sum([1.0, 1.0]) == 2.0 by { assert [1.0, 1.0][..1] == [1.0]; }
    assert Sum(weights) == 3.0 by { assert weights[..2] == [1.0, 1.0]; }
    var stats := CalculateStats([Garage("G", "A", spend)], 1000.0, weights);
    EtaUnique(stats[0].estDaysToTarget.days, 2, 1000.0, 600.0, 200.0);
  }

  /** 600 spent of a 500 target shows 100%, not 120%. */
  lemma ProgressCapped()
    ensures CalculateStats([Garage("G", "A", [600.0])], 500.0, [1.0])[0].progressPercent == 100.0
  {
    assert Sum([600.0]) == 600.0 by {
      assert [600.0][..0] == [];
    }
  }

  /** A record whose only relevant field is its ETA. */
  function WithEta(eta: Eta): GarageStats
  {
    GarageStats(Garage("G", "A", [0.0]), 0.0, 0.0, 0.0, 1, 0.0, 1, 0.0, eta)
  }

  /** ETAs 5, `'∞'`, 2 sort to 2, 5, `'∞'` ascending and to 5, 2, `'∞'` descending. */
  method EtaSortExample()
  {
    var five, never, two := WithEta(Days(5)), WithEta(Unreachable), WithEta(Days(2));
    var stats := [five, never, two];
    ParseSortValueRoundTrip(EtaAsc);
    ParseSortValueRoundTrip(EtaDesc);

    var up := ApplySort(stats, "eta-asc");
    assert "eta-asc" == SortValue(EtaAsc);
    assert up == [two, five, never] by {
      SortedOfThree(up, EtaAsc, five, never, two);
    }

    var down := ApplySort(stats, "eta-desc");
    assert "eta-desc" == SortValue(EtaDesc);
    assert down == [five, two, never] by {
      SortedOfThree(down, EtaDesc, five, never, two);
    }
  }

  /** The one ordering of three records with ETAs 5, `'∞'` and 2 that the ETA orders admit. */
  lemma SortedOfThree(s: seq<GarageStats>, order: SortOrder, five: GarageStats, never: GarageStats, two: GarageStats)
    requires order == EtaAsc || order == EtaDesc
    requires five == WithEta(Days(5)) && never == WithEta(Unreachable) && two == WithEta(Days(2))
    requires multiset(s) == multiset([five, never, two])
    requires Sorted(s, order)
    ensures order == EtaAsc ==> s == [two, five, never]
    ensures order == EtaDesc ==> s == [five, two, never]
  {
    assert |s| == 3 by {
      assert |multiset(s)| == |s|;
    }
    assert s[0] in multiset(s) && s[1] in multiset(s) && s[2] in multiset(s);
    assert s[2] == never;
  }
}
