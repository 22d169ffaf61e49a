/** Changing an EEPROM setting of a smart UPS by cycling it through the values the device offers. */
module SmartEeprom {

  /** A faithful device: it answers a query with the current value and a cycle command with OK. */
  class Device {
    const ring: seq<string>
    var at: nat

    constructor (ring: seq<string>, at: nat)
      requires at < |ring|
      ensures Valid() && this.ring == ring && this.at == at
    {
      this.ring, this.at := ring, at;
    }

    ghost predicate Valid()
      reads this
    {
      at < |ring|
    }

    function Query(): string
      requires Valid()
      reads this
    {
      ring[at]
    }

    method Cycle() returns (response: string)
      requires Valid()
      modifies this
      ensures Valid() && at == (old(at) + 1) % |ring| && response == "OK"
    {
      at := (at + 1) % |ring|;
      response := "OK";
    }
  }

  /** The value j cycles after position p. */
  function After(ring: seq<string>, p: nat, j: nat): string
    requires p < |ring|
  {
    ring[(p + j) % |ring|]
  }

  /**
   The setting can be reached: it comes up within ten cycles, and the value the device started from
   does not come back before it, other than at the first cycle.
   */
  predicate Reaches(ring: seq<string>, p: nat, setting: string)
    requires p < |ring|
  {
    || After(ring, p, 0) == setting
    || exists j :: 1 <= j <= 10 && After(ring, p, j) == setting
         && forall m :: 2 <= m < j ==> After(ring, p, m) != After(ring, p, 0)
  }

  lemma CycleAfter(n: nat, p: nat, j: nat)
    requires p < n
    ensures ((p + j) % n + 1) % n == (p + (j + 1)) % n
  {
    var q := (p + j) / n;
    assert p + j == n * q + (p + j) % n;
    if (p + j) % n + 1 < n {
      Remainder(p + j + 1, n, q, (p + j) % n + 1);
      Remainder((p + j) % n + 1, n, 0, (p + j) % n + 1);
    } else {
      assert n * (q + 1) == n * q + n;
      Remainder(p + j + 1, n, q + 1, 0);
      Remainder(n, n, 1, 0);
    }
  }

  lemma Remainder(x: nat, n: nat, q: nat, r: nat)
    requires n > 0 && r < n && x == n * q + r
    ensures x % n == r
  {
    var d := x / n;
    assert x == n * d + x % n;
    assert n * (q - d) == n * q - n * d;
    Multiple(n, q - d);
  }

  lemma Multiple(n: int, k: int)
    requires n > 0
    ensures k >= 1 ==> n * k >= n
    ensures k <= -1 ==> n * k <= -n
  {
    if k >= 1 {
      assert n * k == n + n * (k - 1);
    } else if k <= -1 {
      assert n * k == -n + n * (k + 1) && n * (k + 1) <= 0;
    }
  }

  /** change_ups_eeprom_item: whether the setting was made, and the values seen on the way. */
  method ChangeItem(device: Device, setting: string) returns (ok: bool, allvalues: seq<string>)
    requires device.Valid()
    modifies device
    ensures device.Valid()
    ensures ok <==> Reaches(device.ring, old(device.at), setting)
    ensures ok ==> device.Query() == setting
    ensures !ok ==> device.at == (old(device.at) + 10) % |device.ring| || device.Query() == old(device.Query())
    ensures forall v :: v in allvalues ==> v in device.ring
  {
    ghost var p := device.at;
    var oldvalue := device.Query();
    allvalues := [];
    if oldvalue == setting {
      assert After(device.ring, p, 0) == setting;
      return true, allvalues;
    }
    allvalues := [oldvalue];
    var lastvalue := oldvalue;
    var response := device.Query();
    if oldvalue != response {
      return false, allvalues;
    }
    for i := 0 to 10
      invariant device.Valid() && device.at == (p + i) % |device.ring|
      invariant forall j :: 1 <= j <= i ==> After(device.ring, p, j) != setting
      invariant forall j :: 2 <= j <= i ==> After(device.ring, p, j) != oldvalue
      invariant forall v :: v in allvalues ==> v in device.ring
    {
      var response1 := device.Query();
      response := device.Cycle();
      CycleAfter(|device.ring|, p, i);
      if response != "OK" {
        return false, allvalues;
      }
      response1 := device.Query();
      response := device.Query();
      if response1 != response {
        return false, allvalues;
      }
      assert response == After(device.ring, p, i + 1);
      if setting == response {
        return true, allvalues;
      }
      if oldvalue == response && i > 0 {
        NotReached(device.ring, p, setting, i + 1);
        return false, allvalues;
      }
      if lastvalue != response {
        allvalues := allvalues + [response];
        lastvalue := response;
      }
    }
    ok := false;
  }

  /** Cycling back to the old value without having met the setting means it is not reached. */
  lemma NotReached(ring: seq<string>, p: nat, setting: string, back: nat)
    requires p < |ring| && After(ring, p, 0) != setting && back >= 2 && After(ring, p, back) == After(ring, p, 0)
    requires forall j :: 1 <= j <= back ==> After(ring, p, j) != setting
    ensures !Reaches(ring, p, setting)
  {
  }

  /** The old value occurs nowhere but next to where it was read, as L does in H M L L. */
  predicate OldOnceOrPair(ring: seq<string>, p: nat)
    requires p < |ring|
  {
    forall j :: 1 < j < |ring| - 1 ==> After(ring, p, j) != After(ring, p, 0)
  }

  /** On such a ring of at most eleven values every value it holds is reached, and no other. */
  lemma ReachesWhatTheRingHolds(ring: seq<string>, p: nat, setting: string)
    requires p < |ring| <= 11 && OldOnceOrPair(ring, p)
    ensures Reaches(ring, p, setting) <==> setting in ring
  {
    if setting in ring {
      var x :| 0 <= x < |ring| && ring[x] == setting;
      var j := if x >= p then x - p else x + |ring| - p;
      assert (p + j) % |ring| == x by {
        Remainder(p + j, |ring|, if x >= p then 0 else 1, x);
      }
      assert After(ring, p, j) == setting;
    }
  }
}
