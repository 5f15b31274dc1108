/**
 * The reminder decision of `check` and the split of the snapshot that
 * `mailBody` makes, both against the threshold `now + thresholdDays`.
 */
module Reminder {
  import opened Times
  import opened Settings

  /** The instant both `check` and `mailBody` compare expirations against. */
  function Threshold(config: Config, now: Time): (threshold: Time)
    ensures threshold == now + config.thresholdDays * SecondsPerDay
    ensures Before(now, threshold) <==> config.thresholdDays > 0
  {
    AddDays(now, config.thresholdDays)
  }

  /** Some collected certificate expires strictly before the threshold. */
  predicate AnyBefore(exMap: map<Host, Time>, threshold: Time) {
    exists h :: h in exMap && Before(exMap[h], threshold)
  }

  /** The loop of `check` that sets `shouldRemind`, over the map in any order. */
  method ShouldRemind(exMap: map<Host, Time>, threshold: Time) returns (shouldRemind: bool)
    ensures shouldRemind <==> AnyBefore(exMap, threshold)
  {
    shouldRemind := false;
    var rest := exMap.Keys;
    while rest != {}
      invariant rest <= exMap.Keys
      invariant shouldRemind <==> exists h :: h in exMap && h !in rest && Before(exMap[h], threshold)
      decreases |rest|
    {
      var host :| host in rest;
      if Before(exMap[host], threshold) {
        shouldRemind := true;
      }
      rest := rest - {host};
    }
  }

  /** The hosts whose certificate expires strictly before the threshold. */
  function Soon(exMap: map<Host, Time>, threshold: Time): map<Host, Time> {
    map h | h in exMap && Before(exMap[h], threshold) :: exMap[h]
  }

  /** The hosts whose certificate expires at or after the threshold. */
  function Others(exMap: map<Host, Time>, threshold: Time): map<Host, Time> {
    map h | h in exMap && !Before(exMap[h], threshold) :: exMap[h]
  }

  /**
   * `soon` and `others` split the snapshot: disjoint, together the whole of
   * it, and an expiration equal to the threshold falls in `others`.
   */
  lemma PartitionProperties(exMap: map<Host, Time>, threshold: Time)
    ensures Soon(exMap, threshold).Keys !! Others(exMap, threshold).Keys
    ensures Soon(exMap, threshold) + Others(exMap, threshold) == exMap
    ensures forall h :: h in Soon(exMap, threshold) ==> Before(Soon(exMap, threshold)[h], threshold)
    ensures forall h :: h in Others(exMap, threshold) ==> !Before(Others(exMap, threshold)[h], threshold)
    ensures forall h :: h in Others(exMap, threshold) ==>
      Others(exMap, threshold)[h] == threshold || Before(threshold, Others(exMap, threshold)[h])
    ensures forall h :: h in exMap && exMap[h] == threshold ==> h in Others(exMap, threshold)
  {
  }

  /** The reminder fires exactly when the `soon` part is non-empty. */
  lemma RemindIffSoonNonEmpty(exMap: map<Host, Time>, threshold: Time)
    ensures AnyBefore(exMap, threshold) <==> Soon(exMap, threshold) != map[]
  {
    if AnyBefore(exMap, threshold) {
      var h :| h in exMap && Before(exMap[h], threshold);
      assert h in Soon(exMap, threshold);
    }
  }

  /** The first loop of `mailBody`: each host goes to `soon` or to `others`. */
  method Partition(exMap: map<Host, Time>, threshold: Time) returns (soon: map<Host, Time>, others: map<Host, Time>)
    ensures soon == Soon(exMap, threshold)
    ensures others == Others(exMap, threshold)
  {
    soon, others := map[], map[];
    var rest := exMap.Keys;
    while rest != {}
      invariant rest <= exMap.Keys
      invariant soon == Soon(exMap - rest, threshold)
      invariant others == Others(exMap - rest, threshold)
      decreases |rest|
    {
      var host :| host in rest;
      ghost var done := exMap - rest;
      assert exMap - (rest - {host}) == done[host := exMap[host]];
      if Before(exMap[host], threshold) {
        soon := soon[host := exMap[host]];
      } else {
        others := others[host := exMap[host]];
      }
      rest := rest - {host};
    }
    assert exMap - {} == exMap;
  }

  /**
   * The snapshot {a: 2024-01-01, b: 2025-01-01} checked on 2024-01-01 with
   * the default 30 days: a reminder, `a` in `soon` and `b` in `others`.
   */
  lemma TwoHostExample()
    ensures var config := Config(["a", "b"], ["ops@example.com"], 30, "ops@example.com");
      var exMap := map["a" := 1_704_067_200, "b" := 1_735_689_600];
      var threshold := Threshold(config, 1_704_067_200);
      && AnyBefore(exMap, threshold)
      && Soon(exMap, threshold) == map["a" := 1_704_067_200]
      && Others(exMap, threshold) == map["b" := 1_735_689_600]
  {
    var exMap := map["a" := 1_704_067_200, "b" := 1_735_689_600];
    var threshold := AddDays(1_704_067_200, 30);
    assert Before(exMap["a"], threshold);
    assert Soon(exMap, threshold).Keys == {"a"};
    assert Others(exMap, threshold).Keys == {"b"};
  }
}
