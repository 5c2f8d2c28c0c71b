/**
 How the two versions of `calculateStats` relate: they agree when every
 weighted day is one of the first eight, and part ways once a later day
 carries weight, because only the later version counts it.
 */
module Versions {
  import opened SpendMath
  import opened Garages
  import MondelloApp
  import App

  /** With only current days weighted, and a positive weight, both versions give the same records. */
  lemma AgreeOnCurrentDays(data: App.Dataset)
    requires data.target > 0.0
    requires forall i :: 0 <= i < |data.garages| ==> |data.garages[i].dailySpend| > 0
    requires forall i :: 0 <= i < |data.dayWeights| ==> App.IsCurrentDay(data.dayWeights[i].day)
    requires App.TotalWeight(data.dayWeights) > 0.0
    ensures App.CalculateStats(data) ==
            MondelloApp.CalculateStats(data.garages, data.target, App.Weights(data.dayWeights))
  {
    App.AllCurrentTotalWeight(data.dayWeights);
    var earlier := App.CalculateStats(data);
    var later := MondelloApp.CalculateStats(data.garages, data.target, App.Weights(data.dayWeights));
    forall i | 0 <= i < |earlier|
      ensures earlier[i] == later[i]
    {
      DescribesDetermines(earlier[i], later[i], data.garages[i], data.target);
    }
  }

  /** A weight of 1 on day 1 and another on day 9. */
  const DayOneAndNine := [App.DayWeight("1", 1.0), App.DayWeight("9", 1.0)]

  /** Day 1 passes `d <= 8` and day 9 does not. */
  lemma DayOneCurrentNineNot()
    ensures App.IsCurrentDay("1") && !App.IsCurrentDay("9")
  {
    App.DayKeyIsCurrent(1);
    App.DayKeyIsCurrent(9);
    assert App.DayKey(1) == "1" && App.DayKey(9) == "9";
  }

  /** Only the day-1 weight is current. */
  lemma CurrentWeightOfDayOneAndNine()
    ensures App.TotalWeight(DayOneAndNine) == 1.0
  {
    var one, nine := App.DayWeight("1", 1.0), App.DayWeight("9", 1.0);
    DayOneCurrentNineNot();
    App.TotalWeightAppend([], one);
    App.TotalWeightAppend([one], nine);
    assert [] + [one] == [one] && [one] + [nine] == DayOneAndNine;
  }

  /** Both weights count when every weight does. */
  lemma AllWeightsOfDayOneAndNine()
    ensures Sum(App.Weights(DayOneAndNine)) == 2.0
  {
    assert App.Weights(DayOneAndNine) == [1.0, 1.0];
    assert [1.0, 1.0][..1] == [1.0];
    assert [1.0][..0] == [];
  }

  /** A weight on day 9 lowers the later version's average but not the earlier one's. */
  lemma DifferPastDayEight()
    ensures App.TotalWeight(DayOneAndNine) == 1.0
    ensures var data := App.Dataset(100.0, DayOneAndNine, [Garage("G", "A", [10.0])]);
            App.CalculateStats(data)[0].average == 10.0
            && MondelloApp.CalculateStats(data.garages, data.target, App.Weights(data.dayWeights))[0].average == 5.0
  {
    CurrentWeightOfDayOneAndNine();
    AllWeightsOfDayOneAndNine();
    assert Sum([10.0]) == 10.0 by {
      assert [10.0][..0] == [];
    }
  }
}
