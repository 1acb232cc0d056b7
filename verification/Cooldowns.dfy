/** Per-workload, per-direction cooldowns between resizes. */
module Cooldowns {
  import opened Resources
  import opened Planner

  /** When each workload was last resized in each direction. */
  type Stamps = map<string, map<Direction, int>>

  function StampOf(last: Stamps, key: string, d: Direction): Option<int> {
    if key in last && d in last[key] then Some(last[key][d]) else None
  }

  predicate Allows(last: Stamps, key: string, d: Direction, cooldown: int, now: int) {
    key in last && d in last[key] ==> now - last[key][d] >= cooldown
  }

  function Stamp(last: Stamps, key: string, d: Direction, now: int): Stamps {
    last[key := (if key in last then last[key] else map[])[d := now]]
  }

  function StampAll(last: Stamps, key: string, dirs: set<Direction>, now: int): Stamps {
    var up := if Up in dirs then Stamp(last, key, Up, now) else last;
    if Down in dirs then Stamp(up, key, Down, now) else up
  }

  lemma StampAllExactly(last: Stamps, key: string, dirs: set<Direction>, now: int, k: string, d: Direction)
    ensures StampOf(StampAll(last, key, dirs, now), k, d) ==
            if k == key && d in dirs then Some(now) else StampOf(last, k, d)
  {
    assert d == Up || d == Down;
  }

  class CooldownTracker {
    var last: Stamps

    constructor ()
      ensures last == map[]
    {
      last := map[];
    }

    method Allow(key: string, d: Direction, cooldown: int, now: int) returns (ok: bool)
      ensures ok <==> Allows(last, key, d, cooldown, now)
      ensures ok <==> var t := StampOf(last, key, d); t.None? || now - t.value >= cooldown
    {
      if key !in last || d !in last[key] {
        return true;
      }
      return now - last[key][d] >= cooldown;
    }

    method Record(key: string, d: Direction, now: int)
      modifies this
      ensures last == Stamp(old(last), key, d, now)
      ensures forall k, e :: StampOf(last, k, e) == if k == key && e == d then Some(now) else StampOf(old(last), k, e)
    {
      if key !in last {
        last := last[key := map[]];
      }
      last := last[key := last[key][d := now]];
    }
  }
}
