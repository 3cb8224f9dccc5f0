/** A projectile: unit direction, straight flight, fixed lifetime (projectile.cpp). */
module Projectiles {
  import opened Seqs

  const SPEED: real := 30.0
  const LIFETIME: real := 1.5
  const RADIUS: real := 0.2
  const EPSILON: real := 0.000000001

  datatype Projectile = Projectile(
    id: nat, ownerId: string, x: real, y: real, dirX: real, dirY: real, spawnTime: real, active: bool)
  {
    function Advance(delta: real): Projectile {
      if !active then this
      else this.(x := x + dirX * SPEED * delta, y := y + dirY * SPEED * delta)
    }

    predicate IsExpired(now: real) {
      !active || now - spawnTime >= LIFETIME
    }

    function Deactivate(): Projectile { this.(active := false) }
  }

  /** The constructor normalises the direction and refuses a (nearly) zero one; `magnitude` is its square root. */
  function Make(id: nat, ownerId: string, x: real, y: real, dirX: real, dirY: real, spawnTime: real, magnitude: real)
    : Option<Projectile>
  {
    if magnitude < EPSILON then None
    else Some(Projectile(id, ownerId, x, y, dirX / magnitude, dirY / magnitude, spawnTime, true))
  }
}
