/** The health a watched projection publishes. */
module WatchHealths {
  datatype WatchHealth = Healthy | Degraded

  /** A channel that tells its receivers about changes only. */
  class WatchHealthChannel {
    var value: WatchHealth
    var published: seq<WatchHealth>

    ghost predicate Valid()
      reads this
    {
      && value == (if published == [] then Degraded else published[|published| - 1])
      && (published != [] ==> published[0].Healthy?)
      && forall i :: 0 < i < |published| ==> published[i] != published[i - 1]
    }

    constructor ()
      ensures Valid() && value == Degraded && published == []
    {
      value, published := Degraded, [];
    }

    method Set(health: WatchHealth)
      requires Valid()
      modifies this
      ensures Valid() && value == health
      ensures published == if old(value) == health then old(published) else old(published) + [health]
    {
      if value != health {
        value, published := health, published + [health];
      }
    }
  }
}
