/** Entities on the map (entity.py): coordinates, Chebyshev distance,
    moving and placing, and the shooting loop of an actor's firearm. */
module Entities {
  import opened Results
  import opened Randomness
  import opened Firearms
  import Rooms

  /** The chessboard distance between two cells: diagonal steps cost one. */
  function Chebyshev(x1: int, y1: int, x2: int, y2: int): (d: nat)
    ensures Rooms.Abs(x2 - x1) <= d && Rooms.Abs(y2 - y1) <= d
    ensures d == Rooms.Abs(x2 - x1) || d == Rooms.Abs(y2 - y1)
  {
    if Rooms.Abs(x2 - x1) < Rooms.Abs(y2 - y1) then Rooms.Abs(y2 - y1) else Rooms.Abs(x2 - x1)
  }

  /** Chebyshev distance is a metric: zero exactly between equal cells,
      symmetric, and obeying the triangle inequality. */
  lemma ChebyshevMetric(x1: int, y1: int, x2: int, y2: int, x3: int, y3: int)
    ensures Chebyshev(x1, y1, x2, y2) == 0 <==> x1 == x2 && y1 == y2
    ensures Chebyshev(x1, y1, x2, y2) == Chebyshev(x2, y2, x1, y1)
    ensures Chebyshev(x1, y1, x3, y3) <= Chebyshev(x1, y1, x2, y2) + Chebyshev(x2, y2, x3, y3)
  {
    var a, b := Chebyshev(x1, y1, x2, y2), Chebyshev(x2, y2, x3, y3);
    assert Rooms.Abs(x3 - x1) <= Rooms.Abs(x2 - x1) + Rooms.Abs(x3 - x2);
    assert Rooms.Abs(y3 - y1) <= Rooms.Abs(y2 - y1) + Rooms.Abs(y3 - y2);
  }

  class Entity {
    var x: int
    var y: int
    var name: string

    constructor (x: int, y: int, name: string)
      ensures this.x == x && this.y == y && this.name == name
    {
      this.x := x;
      this.y := y;
      this.name := name;
    }

    /** distance: how many king's moves separate the entity from (x, y). */
    function Distance(x: int, y: int): (d: int)
      reads this
      ensures 0 <= d
      ensures d == 0 <==> x == this.x && y == this.y
      ensures Rooms.Abs(x - this.x) <= d && Rooms.Abs(y - this.y) <= d
      ensures d == Rooms.Abs(x - this.x) || d == Rooms.Abs(y - this.y)
    {
      ChebyshevMetric(this.x, this.y, x, y, x, y);
      Chebyshev(this.x, this.y, x, y)
    }

    /** move: shifts the entity by (dx, dy). */
    method Move(dx: int, dy: int)
      modifies this
      ensures x == old(x) + dx && y == old(y) + dy && name == old(name)
    {
      x := x + dx;
      y := y + dy;
    }

    /** place: puts the entity at (x, y). */
    method Place(x: int, y: int)
      modifies this
      ensures this.x == x && this.y == y && name == old(name)
    {
      this.x := x;
      this.y := y;
    }

    /** spawn: a new copy of the entity at (x, y); the original stays where
        it was. */
    method Spawn(x: int, y: int) returns (clone: Entity)
      ensures fresh(clone)
      ensures clone.x == x && clone.y == y && clone.name == name
    {
      clone := new Entity(x, y, name);
    }
  }

  /** The fighter component: only the hit points take part here. */
  class Fighter {
    var hp: int

    constructor (hp: int)
      ensures this.hp == hp
    {
      this.hp := hp;
    }
  }

  /** An actor: an entity with a fighter and, when its equipment holds a
      weapon with a firearm, that firearm. */
  class Actor {
    const body: Entity
    const fighter: Fighter
    var firearm: Firearm?

    constructor (body: Entity, fighter: Fighter, firearm: Firearm?)
      ensures this.body == body && this.fighter == fighter && this.firearm == firearm
    {
      this.body := body;
      this.fighter := fighter;
      this.firearm := firearm;
    }

    /** shoot: with a firearm, a target and a gun that can shoot, fires up
        to burst rounds while ammunition lasts; each round hits when its hit
        roll is non-zero and then adds a damage roll; every round costs one
        unit of ammunition and restarts the cooldown. The target loses the
        total when it is positive. Without a target, or with a gun that
        cannot shoot, the gun only skips the turn. The messages logged are
        returned. */
    method Shoot(target: Actor?, hitRolls: seq<nat>, damageRolls: seq<nat>, ownerIsPlayer: bool)
      returns (outcome: Outcome, log: seq<string>)
      modifies firearm, if firearm != null then firearm.cooldown else null
      modifies if target != null then {target.fighter} else {}
      ensures firearm == old(firearm)
      ensures firearm == null ==> outcome == Pass && log == []
      ensures firearm == null && target != null ==> target.fighter.hp == old(target.fighter.hp)
      ensures firearm != null ==>
        && firearm.cooldown == old(firearm.cooldown) && firearm.damage == old(firearm.damage) && firearm.burst == old(firearm.burst)
        && firearm.maxAmmo == old(firearm.maxAmmo) && firearm.radius == old(firearm.radius)
      ensures firearm != null && firearm.cooldown != null ==>
        firearm.cooldown.length == old(firearm.cooldown.length) && firearm.cooldown.messages == old(firearm.cooldown.messages)
      // No target, or a gun that cannot shoot: skip_turn and nothing else.
      ensures firearm != null && (target == null || !old(firearm.CanShoot())) ==>
        && outcome == Pass
        && firearm.ammo == old(firearm.ammo)
        && (target != null ==> target.fighter.hp == old(target.fighter.hp))
        && (firearm.cooldown != null ==>
              firearm.cooldown.remaining == if old(firearm.cooldown.remaining) > 0 then old(firearm.cooldown.remaining) - 1 else old(firearm.cooldown.remaining))
        && (log != [] <==>
              && firearm.cooldown != null && old(firearm.cooldown.remaining) > 0
              && HasMessages(firearm.cooldown.messages)
              && firearm.cooldown.remaining < |firearm.cooldown.messages.value| && ownerIsPlayer)
        && (log != [] ==> log == [firearm.cooldown.messages.value[firearm.cooldown.remaining]])
      // A volley.
      ensures firearm != null && target != null && old(firearm.CanShoot()) ==>
        var n := Shots(old(firearm.burst), old(firearm.ammo));
        var total := VolleyDamage(old(firearm.damage), hitRolls, damageRolls, n);
        && (outcome.Pass? <==> total.Ok?)
        && (outcome.Pass? ==>
              && firearm.ammo == old(firearm.ammo) - n
              && 0 <= firearm.ammo
              && (firearm.cooldown != null ==>
                    firearm.cooldown.remaining == if 0 < n then firearm.cooldown.length else old(firearm.cooldown.remaining))
              && target.fighter.hp == (if 0 < total.value then old(target.fighter.hp) - total.value else old(target.fighter.hp))
              && log == [if 0 < total.value then body.name + " shoots the " + target.body.name + "!" else body.name + " misses!"])
    {
      log := [];
      outcome := Pass;
      if firearm == null {
        return;
      }
      var gun := firearm;
      if target == null || !gun.CanShoot() {
        var message := gun.SkipTurn(ownerIsPlayer);
        if message.Some? {
          log := [message.value];
        }
        return;
      }
      ghost var n := Shots(gun.burst, gun.ammo);
      var damage := 0;
      var shotsFired := 0;
      while shotsFired < gun.burst && gun.ammo > 0
        invariant 0 <= shotsFired <= n
        invariant gun.ammo == old(gun.ammo) - shotsFired
        invariant gun.damage == old(gun.damage) && gun.burst == old(gun.burst) && gun.cooldown == old(gun.cooldown)
        invariant gun.maxAmmo == old(gun.maxAmmo) && gun.radius == old(gun.radius)
        invariant gun.cooldown != null ==> gun.cooldown.length == old(gun.cooldown.length) && gun.cooldown.messages == old(gun.cooldown.messages)
        invariant gun.cooldown != null ==> gun.cooldown.remaining == if 0 < shotsFired then gun.cooldown.length else old(gun.cooldown.remaining)
        invariant target.fighter.hp == old(target.fighter.hp)
        invariant VolleyDamage(gun.damage, hitRolls, damageRolls, shotsFired) == Ok(damage)
        decreases n - shotsFired
      {
        var hit := RandInt(0, 3, DrawAt(hitRolls, shotsFired));
        if hit.value != 0 {
          var roll := RandInt(gun.damage / 2, gun.damage, DrawAt(damageRolls, shotsFired));
          if roll.Err? {
            VolleyFailSticks(gun.damage, hitRolls, damageRolls, shotsFired + 1, n);
            return Fail(roll.error), log;
          }
          damage := damage + roll.value;
        }
        gun.ammo := gun.ammo - 1;
        if gun.cooldown != null {
          gun.cooldown.remaining := gun.cooldown.length;
        }
        shotsFired := shotsFired + 1;
      }
      assert shotsFired == n;
      if damage > 0 {
        log := [body.name + " shoots the " + target.body.name + "!"];
        target.fighter.hp := target.fighter.hp - damage;
      } else {
        log := [body.name + " misses!"];
      }
    }
  }

  /** How many rounds a volley fires: burst, unless the magazine runs out
      first. */
  function Shots(burst: int, ammo: int): (n: nat)
    ensures n <= Rooms.Abs(ammo) && n <= Rooms.Abs(burst)
    ensures 0 < burst && 0 < ammo ==> n == if burst < ammo then burst else ammo
    ensures burst <= 0 || ammo <= 0 ==> n == 0
  {
    if burst <= 0 || ammo <= 0 then 0 else if burst < ammo then burst else ammo
  }

  /** Round i hits when its roll of randint(0, 3) is not zero. */
  predicate HitAt(hitRolls: seq<nat>, i: nat) {
    RandInt(0, 3, DrawAt(hitRolls, i)) != Ok(0)
  }

  /** The damage the first n rounds of a volley deal: each hit adds
      randint(damage // 2, damage); a range that is empty (damage below -1)
      raises as soon as a round hits. */
  function VolleyDamage(damage: int, hitRolls: seq<nat>, damageRolls: seq<nat>, n: nat): Result<int> {
    if n == 0 then Ok(0)
    else
      var sofar :- VolleyDamage(damage, hitRolls, damageRolls, n - 1);
      if HitAt(hitRolls, n - 1) then
        var roll :- RandInt(damage / 2, damage, DrawAt(damageRolls, n - 1));
        Ok(sofar + roll)
      else Ok(sofar)
  }

  /** Once a round has raised, the volley has raised. */
  lemma {:induction false} VolleyFailSticks(damage: int, hitRolls: seq<nat>, damageRolls: seq<nat>, n: nat, m: nat)
    requires n <= m
    requires VolleyDamage(damage, hitRolls, damageRolls, n).Err?
    ensures VolleyDamage(damage, hitRolls, damageRolls, m).Err?
    decreases m - n
  {
    if n < m {
      VolleyFailSticks(damage, hitRolls, damageRolls, n, m - 1);
    }
  }

  /** For a weapon of non-negative damage the volley never raises, deals
      between 0 and n * damage, deals at least damage // 2 once any round
      hits, and deals nothing when no round hits. */
  lemma {:induction false} VolleyBounds(damage: int, hitRolls: seq<nat>, damageRolls: seq<nat>, n: nat)
    requires 0 <= damage
    ensures VolleyDamage(damage, hitRolls, damageRolls, n).Ok?
    ensures 0 <= VolleyDamage(damage, hitRolls, damageRolls, n).value <= n * damage
    ensures (exists i :: 0 <= i < n && HitAt(hitRolls, i)) ==> damage / 2 <= VolleyDamage(damage, hitRolls, damageRolls, n).value
    ensures (forall i :: 0 <= i < n ==> !HitAt(hitRolls, i)) ==> VolleyDamage(damage, hitRolls, damageRolls, n).value == 0
  {
    if n > 0 {
      VolleyBounds(damage, hitRolls, damageRolls, n - 1);
      var r := RandInt(damage / 2, damage, DrawAt(damageRolls, n - 1));
      assert r.Ok? && damage / 2 <= r.value <= damage;
      assert (n - 1) * damage + damage == n * damage;
    }
  }

  /** A weapon with damage of -1 or more never raises: the range
      damage // 2 .. damage is never empty. */
  lemma {:induction false} VolleyTotal(damage: int, hitRolls: seq<nat>, damageRolls: seq<nat>, n: nat)
    requires -1 <= damage
    ensures VolleyDamage(damage, hitRolls, damageRolls, n).Ok?
  {
    if n > 0 {
      VolleyTotal(damage, hitRolls, damageRolls, n - 1);
    }
  }
}
