/** The waiter card: a three-level load label and a capped progress bar. */
module WaiterCard {
  datatype LoadStatus = Free | Busy | Occupied

  /** `getStatus`: under 5 minutes Free, under 10 Busy, otherwise Occupied. */
  function GetStatus(occupiedTime: real): (s: LoadStatus)
    ensures s == Free <==> occupiedTime < 5.0
    ensures s == Busy <==> 5.0 <= occupiedTime < 10.0
    ensures s == Occupied <==> occupiedTime >= 10.0
  {
    if occupiedTime < 5.0 then Free
    else if occupiedTime < 10.0 then Busy
    else Occupied
  }

  function Level(s: LoadStatus): nat {
    match s
    case Free => 0
    case Busy => 1
    case Occupied => 2
  }

  /** More load never gives a lighter label. */
  lemma StatusMonotone(a: real, b: real)
    requires a <= b
    ensures Level(GetStatus(a)) <= Level(GetStatus(b))
  {
  }

  /** `occupiedPercentage`: the load as a share of 15 minutes, capped at 100. */
  function OccupiedPercentage(occupiedTime: real): (p: real)
    ensures p <= 100.0
    ensures p == 100.0 <==> occupiedTime >= 15.0
    ensures occupiedTime < 15.0 ==> p * 15.0 == occupiedTime * 100.0
    ensures occupiedTime >= 0.0 ==> p >= 0.0
  {
    var share := occupiedTime / 15.0 * 100.0;
    if share <= 100.0 then share else 100.0
  }

  /** More load never shortens the bar. */
  lemma PercentageMonotone(a: real, b: real)
    requires a <= b
    ensures OccupiedPercentage(a) <= OccupiedPercentage(b)
  {
  }
}
