/**
 The integer part of `calculate_stats`: an empty list has no statistics, and
 a non-empty one reports its size. The floating-point entries (mean,
 standard deviation, estimate) are not part of this model.
 */
module Stats {

  datatype Option<T> = None | Some(value: T)

  /** The exact entry of the dictionary `calculate_stats` returns: 'size'. */
  datatype Stats = Stats(size: nat)

  /**
   `calculate_stats(numbers)`: the empty dictionary (None) exactly for an
   empty list, otherwise a record whose size is the length of the list.
   */
  function CalculateStats(numbers: seq<nat>): (stats: Option<Stats>)
    ensures stats.None? <==> numbers == []
    ensures stats.Some? ==> stats.value.size == |numbers| > 0
  {
    if |numbers| == 0 then None else Some(Stats(|numbers|))
  }

  /**
   The divisor `size - 1` of the sample estimate: never negative for the
   statistics of a non-empty list, and zero exactly when the list holds a
   single number (the estimate then divides by zero).
   */
  function EstimateDivisor(stats: Stats): (d: int)
    requires stats.size > 0
    ensures d >= 0
    ensures d == 0 <==> stats.size == 1
  {
    stats.size - 1
  }
}
