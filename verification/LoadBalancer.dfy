/** Round-robin selection. */
module LoadBalancer {
  import opened Options

  /** The place chosen and the index kept for next time. A single endpoint is taken without counting it. */
  function Select(index: nat, count: nat): (nat, nat)
    requires count > 0
  {
    if count == 1 then (0, index) else (index % count, (index + 1) % count)
  }

  /** The places chosen by `n` selections in a row from `count` endpoints. */
  function Picks(index: nat, count: nat, n: nat): (picks: seq<nat>)
    requires count > 0
    ensures |picks| == n
    decreases n
  {
    if n == 0 then [] else [Select(index, count).0] + Picks(Select(index, count).1, count, n - 1)
  }

  lemma AtLeastOne(x: int, count: nat)
    requires x >= 1
    ensures count * x >= count
  {
    assert count * x == count + count * (x - 1);
  }

  lemma Remainder(a: nat, q: int, r: int, count: nat)
    requires count > 0 && a == count * q + r && 0 <= r < count
    ensures a % count == r
  {
    var p, s := a / count, a % count;
    assert a == count * p + s;
    assert count * (p - q) == r - s;
    assert count * (q - p) == s - r;
    if p > q { AtLeastOne(p - q, count); }
    if q > p { AtLeastOne(q - p, count); }
  }

  lemma NextTurn(index: nat, count: nat, k: nat)
    requires count > 0
    ensures ((index + 1) % count + k) % count == (index + (k + 1)) % count
  {
    var q, r := (index + 1) / count, (index + 1) % count;
    var p, s := (r + k) / count, (r + k) % count;
    assert count * (q + p) == count * q + count * p;
    Remainder(index + (k + 1), q + p, s, count);
  }

  lemma {:induction false} PickAt(index: nat, count: nat, n: nat, k: nat)
    requires count > 0 && k < n
    ensures Picks(index, count, n)[k] == (index + k) % count
    decreases k
  {
    if k > 0 {
      PickAt(Select(index, count).1, count, n - 1, k - 1);
      if count > 1 { NextTurn(index, count, k - 1); }
    }
  }

  /** Of as many selections in a row as there are endpoints, each endpoint gets exactly one. */
  lemma EveryEndpointOnce(index: nat, count: nat, place: nat)
    requires place < count
    ensures exists k :: 0 <= k < count && Picks(index, count, count)[k] == place
    ensures forall k, l :: 0 <= k < l < count ==> Picks(index, count, count)[k] != Picks(index, count, count)[l]
  {
    var r := index % count;
    var k := if place >= r then place - r else place + count - r;
    PickAt(index, count, count, k);
    Wrap(index, count, k);
    forall i, j | 0 <= i < j < count
      ensures Picks(index, count, count)[i] != Picks(index, count, count)[j]
    {
      PickAt(index, count, count, i);
      PickAt(index, count, count, j);
      Wrap(index, count, i);
      Wrap(index, count, j);
    }
  }

  lemma Wrap(index: nat, count: nat, k: nat)
    requires k < count
    ensures (index + k) % count == if index % count + k < count then index % count + k else index % count + k - count
  {
    var q, r := index / count, index % count;
    assert count * (q + 1) == count * q + count;
    if r + k < count {
      Remainder(index + k, q, r + k, count);
    } else {
      Remainder(index + k, q + 1, r + k - count, count);
    }
  }

  class RoundRobin {
    var roundRobinIndex: nat

    constructor ()
      ensures roundRobinIndex == 0
    {
      roundRobinIndex := 0;
    }

    method SelectEndpoint<E>(endpoints: seq<E>) returns (endpoint: Option<E>)
      modifies this
      ensures endpoints == [] ==> endpoint.None? && roundRobinIndex == old(roundRobinIndex)
      ensures endpoints != [] ==>
        endpoint == Some(endpoints[Select(old(roundRobinIndex), |endpoints|).0])
        && roundRobinIndex == Select(old(roundRobinIndex), |endpoints|).1
    {
      if |endpoints| == 0 { return None; }
      if |endpoints| == 1 { return Some(endpoints[0]); }
      endpoint := Some(endpoints[roundRobinIndex % |endpoints|]);
      roundRobinIndex := (roundRobinIndex + 1) % |endpoints|;
    }
  }
}
