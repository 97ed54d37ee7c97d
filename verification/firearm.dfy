/** The firearm component (components/firearm.py): ammunition, bursts and
    the cooldown that blocks shooting for a number of turns. */
module Firearms {
  import opened Results

  /** A weapon's cooldown: how many turns a reload takes, how many remain,
      and the messages shown while the last turns tick away. */
  class Cooldown {
    var length: int
    var remaining: int
    var messages: Option<seq<string>>

    constructor (length: int, remaining: int, messages: Option<seq<string>>)
      ensures this.length == length && this.remaining == remaining && this.messages == messages
    {
      this.length := length;
      this.remaining := remaining;
      this.messages := messages;
    }

    /** Cooldown(messages=...): length 1, nothing remaining. */
    constructor WithMessages(messages: seq<string>)
      ensures length == 1 && remaining == 0 && this.messages == Some(messages)
    {
      length := 1;
      remaining := 0;
      this.messages := Some(messages);
    }
  }

  /** Python's truth value of the message list: None and [] are false. */
  predicate HasMessages(messages: Option<seq<string>>) {
    messages.Some? && 0 < |messages.value|
  }

  class Firearm {
    var damage: int
    var maxAmmo: int
    var ammo: int
    var burst: int
    var radius: int
    var cooldown: Cooldown?

    /** Firearm.__init__: the magazine starts full whatever ammo is passed. */
    constructor (damage: int, maxAmmo: int, ammo: int, burst: int, radius: int, cooldown: Cooldown?)
      ensures this.damage == damage && this.maxAmmo == maxAmmo && this.ammo == maxAmmo
      ensures this.burst == burst && this.radius == radius && this.cooldown == cooldown
    {
      this.damage := damage;
      this.maxAmmo := maxAmmo;
      this.ammo := maxAmmo;
      this.burst := burst;
      this.radius := radius;
      this.cooldown := cooldown;
    }

    /** The weapon fires when it holds ammunition and is not cooling down. */
    predicate CanShoot()
      reads this, cooldown
    {
      !(ammo <= 0 || (cooldown != null && cooldown.remaining > 0))
    }

    /** A gun with ammunition and no cooldown to wait for can shoot; one with
        an empty magazine or turns left to wait cannot. */
    lemma CanShootIff()
      ensures CanShoot() <==> 0 < ammo && (cooldown == null || cooldown.remaining <= 0)
      ensures ammo <= 0 ==> !CanShoot()
      ensures cooldown != null && 0 < cooldown.remaining ==> !CanShoot()
    {
    }

    /** skip_turn: a turn passes without a shot. A positive cooldown counts
        down by one; once fewer turns remain than there are messages, the
        message for the remaining count is shown to the player who carries
        the weapon. Nothing else changes. */
    method SkipTurn(ownerIsPlayer: bool) returns (message: Option<string>)
      modifies cooldown
      ensures cooldown == old(cooldown)
      ensures cooldown != null ==> cooldown.length == old(cooldown.length) && cooldown.messages == old(cooldown.messages)
      ensures cooldown != null ==> cooldown.remaining == if old(cooldown.remaining) > 0 then old(cooldown.remaining) - 1 else old(cooldown.remaining)
      ensures cooldown != null && old(cooldown.remaining) >= 0 ==> cooldown.remaining >= 0
      ensures message.Some? <==>
        cooldown != null && old(cooldown.remaining) > 0 && HasMessages(cooldown.messages)
        && cooldown.remaining < |cooldown.messages.value| && ownerIsPlayer
      ensures message.Some? ==> message.value == cooldown.messages.value[cooldown.remaining]
    {
      message := None;
      if cooldown != null && cooldown.remaining > 0 {
        cooldown.remaining := cooldown.remaining - 1;
        if HasMessages(cooldown.messages) {
          if cooldown.remaining < |cooldown.messages.value| && ownerIsPlayer {
            message := Some(cooldown.messages.value[cooldown.remaining]);
          }
        }
      }
    }
  }

  /** A shotgun: 24 damage, 16 shells, a one-turn pump between shots. */
  method Shotgun() returns (f: Firearm)
    ensures fresh(f) && fresh(f.cooldown) && f.cooldown != null
    ensures f.damage == 24 && f.maxAmmo == 16 && f.ammo == 16 && f.burst == 1 && f.radius == 0
    ensures f.cooldown.length == 1 && f.cooldown.remaining == 0
    ensures f.cooldown.messages == Some(["You pump your shotgun."])
  {
    var c := new Cooldown.WithMessages(["You pump your shotgun."]);
    f := new Firearm(24, 16, 1, 1, 0, c);
  }

  /** A chaingun: 16 damage, 60 rounds, three shots a burst, no cooldown. */
  method Chaingun() returns (f: Firearm)
    ensures fresh(f)
    ensures f.damage == 16 && f.maxAmmo == 60 && f.ammo == 60 && f.burst == 3 && f.radius == 0
    ensures f.cooldown == null
  {
    f := new Firearm(16, 60, 1, 3, 0, null);
  }

  /** A rocket launcher: 24 damage, 8 rockets, blast radius 2, a one-turn
      reload between shots. */
  method RocketLauncher() returns (f: Firearm)
    ensures fresh(f) && fresh(f.cooldown) && f.cooldown != null
    ensures f.damage == 24 && f.maxAmmo == 8 && f.ammo == 8 && f.burst == 1 && f.radius == 2
    ensures f.cooldown.length == 1 && f.cooldown.remaining == 0
    ensures f.cooldown.messages == Some(["You reload your rocket launcher."])
  {
    var c := new Cooldown.WithMessages(["You reload your rocket launcher."]);
    f := new Firearm(24, 8, 1, 1, 2, c);
  }
}
