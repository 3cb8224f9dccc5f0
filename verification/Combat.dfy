/** Health, combat events and the bounded combat log (combat.cpp). */
module Combat {
  import opened Seqs

  const LOG_CAPACITY: nat := 32

  datatype Health = Health(max: int, current: int) {
    predicate IsAlive() { current > 0 }

    /** The component after the damage, and whether this damage killed it. */
    function ApplyDamage(amount: int): (Health, bool) {
      if amount <= 0 || !IsAlive() then (this, false)
      else
        var left := if current - amount > 0 then current - amount else 0;
        (this.(current := left), left == 0)
    }

    function Reset(): Health { this.(current := max) }
  }

  datatype EventType = Hit | Death

  datatype CombatEvent =
    CombatEvent(kind: EventType, shooterId: string, targetId: string, projectileId: nat, damage: nat, tick: nat)

  class CombatLog {
    const capacity: nat
    var events: seq<CombatEvent>

    ghost predicate Valid()
      reads this
    {
      |events| <= capacity
    }

    constructor (capacity: nat)
      ensures Valid() && this.capacity == capacity && events == []
    {
      this.capacity := capacity;
      events := [];
    }

    method Add(event: CombatEvent)
      requires Valid()
      modifies this
      ensures Valid() && events == Suffix(old(events) + [event], capacity)
    {
      if capacity == 0 {
        return;
      }
      events := events + [event];
      if |events| > capacity {
        events := events[1..];
      }
    }

    method Snapshot() returns (copy: seq<CombatEvent>)
      ensures copy == events
    {
      copy := events;
    }
  }
}
