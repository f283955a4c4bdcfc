/** A ship: its size and remaining health (game.go `Ship`, `NewShip`, `hit`). */
module Ships {
  import opened Types

  datatype Ship = Ship(size: uint8, health: uint8) {

    /** `hit()`: health drops by one in `uint8` arithmetic (so a ship already at
        zero wraps to 255), and the result says whether health is now zero. */
    function Hit(): (r: (Ship, bool))
      ensures r.0.size == size
      ensures health > 0 ==> r.0.health as int == health as int - 1
      ensures health == 0 ==> r.0.health == 255
      ensures r.1 <==> r.0.health == 0
    {
      var h := WrapU8(health as int - 1);
      (Ship(size, h), h == 0)
    }
  }

  /** A ship of the given size at full health. */
  function NewShip(size: uint8): (s: Ship)
    ensures s.size == size && s.health == size
  {
    Ship(size, size)
  }

  /** The ship after `k` hits in a row. */
  function HitTimes(s: Ship, k: nat): Ship {
    if k == 0 then s else HitTimes(s, k - 1).Hit().0
  }

  /** A fresh ship of size `n` survives its first `n - 1` hits and sinks on the
      `n`-th: each hit takes exactly one point of health and none wraps. */
  lemma {:induction false} NewShipSinksOnLastHit(n: uint8, k: nat)
    requires 0 < k <= n as int
    ensures HitTimes(NewShip(n), k).health as int == n as int - k
    ensures HitTimes(NewShip(n), k - 1).Hit().1 <==> k == n as int
  {
    if k > 1 {
      NewShipSinksOnLastHit(n, k - 1);
    }
  }
}
