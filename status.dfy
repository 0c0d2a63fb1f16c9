/** The lifecycle of a cache entry: ALIVE -> RETIRED -> DEAD, never backwards. */
module NodeStatus {

  /** ALIVE: present in the map and eligible for ordering and eviction.
      RETIRED: removed from the map, possibly still linked in the access order.
      DEAD: removed from the map and unlinked. */
  datatype Status = Alive | Retired | Dead {
    predicate IsAlive() { this == Alive }
    predicate IsRetired() { this == Retired }
    predicate IsDead() { this == Dead }
  }

  /** Position of a status along the lifecycle. */
  function Rank(s: Status): nat
  {
    match s
    case Alive => 0
    case Retired => 1
    case Dead => 2
  }

  /** Retiring an entry: an ALIVE entry becomes RETIRED; a DEAD entry stays DEAD. */
  function MakeRetired(s: Status): (r: Status)
    ensures Rank(s) <= Rank(r)
    ensures !r.IsAlive()
    ensures s.IsDead() <==> r.IsDead()
    ensures s.IsDead() ==> !r.IsRetired()
  {
    if s.IsDead() then Dead else Retired
  }

  /** Killing an entry, the last step of its lifecycle. */
  function MakeDead(s: Status): (r: Status)
    ensures Rank(s) <= Rank(r)
    ensures r.IsDead() && !r.IsAlive() && !r.IsRetired()
  {
    Dead
  }

  /** Exactly one of the three status queries holds, and retiring is idempotent. */
  lemma StatusExclusive(s: Status)
    ensures (s.IsAlive() && !s.IsRetired() && !s.IsDead())
         || (!s.IsAlive() && s.IsRetired() && !s.IsDead())
         || (!s.IsAlive() && !s.IsRetired() && s.IsDead())
    ensures MakeRetired(MakeRetired(s)) == MakeRetired(s)
  {
  }
}
