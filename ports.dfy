/**
 * Port de-confliction: the `findNextAvailablePort` search and the left-to-right
 * assignment that `adjustPorts` performs over a `forwardPorts` list.
 *
 * There is no 0..65535 range check, as in the tool.
 */
module Ports {

  /** The set of elements of a port list. */
  function Elems(s: seq<int>): set<int> {
    set x | x in s
  }

  lemma ElemsConcat(s: seq<int>, t: seq<int>)
    ensures Elems(s + t) == Elems(s) + Elems(t)
  {
    assert forall x :: x in s + t <==> x in s || x in t;
  }

  /** The ports of `used` at or above `start`: finite, and it shrinks as the search moves up. */
  function TakenFrom(used: set<int>, start: int): set<int> {
    set q | q in used && q >= start
  }

  /** The smallest integer at or above `start` that `used` does not hold. */
  function NextFree(start: int, used: set<int>): (p: int)
    ensures start <= p && p !in used
    ensures forall q :: start <= q < p ==> q in used
    decreases |TakenFrom(used, start)|
  {
    if start in used then
      assert TakenFrom(used, start + 1) == TakenFrom(used, start) - {start};
      NextFree(start + 1, used)
    else
      start
  }

  /**
   * `findNextAvailablePort`: probe `startPort`, `startPort + 1`, ... until a port
   * is not in `usedPorts`. It terminates because `usedPorts` is finite.
   */
  method FindNextAvailablePort(startPort: int, usedPorts: set<int>) returns (port: int)
    ensures startPort <= port && port !in usedPorts
    ensures forall q :: startPort <= q < port ==> q in usedPorts
    ensures port == NextFree(startPort, usedPorts)
  {
    port := startPort;
    while port in usedPorts
      invariant startPort <= port
      invariant forall q :: startPort <= q < port ==> q in usedPorts
      decreases |TakenFrom(usedPorts, port)|
    {
      assert TakenFrom(usedPorts, port + 1) == TakenFrom(usedPorts, port) - {port};
      port := port + 1;
    }
    NextFreeUnique(startPort, usedPorts, port);
  }

  /** The three facts of `NextFree`'s contract pin its result down. */
  lemma NextFreeUnique(start: int, used: set<int>, p: int)
    requires start <= p && p !in used
    requires forall q :: start <= q < p ==> q in used
    ensures p == NextFree(start, used)
  {
  }

  /** The ports chosen for a requested list, in order, and the used set after the pass. */
  datatype Allocation = Allocation(ports: seq<int>, used: set<int>)

  /**
   * The assignment `adjustPorts` makes: each requested port, in order, is replaced by
   * the smallest free port at or above it, and that port is added to the used set
   * before the next entry is considered.
   */
  function Allocate(requested: seq<int>, used: set<int>): (a: Allocation)
    ensures |a.ports| == |requested|
    ensures a.used == used + Elems(a.ports)
  {
    if requested == [] then
      Allocation([], used)
    else
      var p := NextFree(requested[0], used);
      var rest := Allocate(requested[1..], used + {p});
      Allocation([p] + rest.ports, rest.used)
  }

  /**
   * Position `i` of the output is the smallest port at or above position `i` of the
   * input that is free in the used set at its turn: the initial set plus the ports
   * already assigned to positions `0 .. i-1`.
   */
  lemma {:induction false} AllocateAt(requested: seq<int>, used: set<int>, i: nat)
    requires i < |requested|
    ensures Allocate(requested, used).ports[i]
            == NextFree(requested[i], used + Elems(Allocate(requested, used).ports[..i]))
  {
    var p := NextFree(requested[0], used);
    var rest := Allocate(requested[1..], used + {p});
    assert Allocate(requested, used).ports == [p] + rest.ports;
    if i > 0 {
      AllocateAt(requested[1..], used + {p}, i - 1);
      assert requested[i] == requested[1..][i - 1];
      UsedShift(p, rest.ports, used, i);
    } else {
      assert Elems(Allocate(requested, used).ports[..0]) == {};
    }
  }

  /** Dropping the first assigned port `p` from the prefix moves it into the used set. */
  lemma UsedShift(p: int, s: seq<int>, used: set<int>, i: nat)
    requires 0 < i <= |s|
    ensures ([p] + s)[i] == s[i - 1]
    ensures used + Elems(([p] + s)[..i]) == (used + {p}) + Elems(s[..i - 1])
  {
    assert ([p] + s)[..i] == [p] + s[..i - 1];
    ElemsConcat([p], s[..i - 1]);
  }

  /** The used set in force when position `i` is assigned. */
  function UsedAtTurn(requested: seq<int>, used: set<int>, i: nat): set<int>
    requires i <= |requested|
  {
    used + Elems(Allocate(requested, used).ports[..i])
  }

  /**
   * Each output port is at or above its requested port and free at its turn; it equals
   * the requested port exactly when that port was free at its turn, and otherwise
   * every port from the requested one up to it was taken.
   */
  lemma AllocatePosition(requested: seq<int>, used: set<int>, i: nat)
    requires i < |requested|
    ensures var out := Allocate(requested, used).ports[i];
            && requested[i] <= out
            && out !in UsedAtTurn(requested, used, i)
            && (out == requested[i] <==> requested[i] !in UsedAtTurn(requested, used, i))
            && (forall q :: requested[i] <= q < out ==> q in UsedAtTurn(requested, used, i))
  {
    AllocateAt(requested, used, i);
  }

  /** No output port was in the initial used set. */
  lemma AllocateAvoidsUsed(requested: seq<int>, used: set<int>, i: nat)
    requires i < |requested|
    ensures Allocate(requested, used).ports[i] !in used
  {
    AllocateAt(requested, used, i);
  }

  /** The output ports are pairwise distinct. */
  lemma AllocateDistinct(requested: seq<int>, used: set<int>, i: nat, j: nat)
    requires i < j < |requested|
    ensures Allocate(requested, used).ports[i] != Allocate(requested, used).ports[j]
  {
    var a := Allocate(requested, used);
    AllocateAt(requested, used, j);
    assert a.ports[i] in a.ports[..j];
  }

  /** The used set only grows: afterwards it is the initial set plus exactly the output ports. */
  lemma AllocateGrowsUsed(requested: seq<int>, used: set<int>)
    ensures used <= Allocate(requested, used).used
    ensures Allocate(requested, used).used - used <= Elems(Allocate(requested, used).ports)
    ensures Elems(Allocate(requested, used).ports) <= Allocate(requested, used).used
  {
  }

  /**
   * When no requested port is taken up front and the requested ports are mutually
   * distinct, every port is kept as requested.
   */
  lemma {:induction false} AllocateKeepsFreeDistinct(requested: seq<int>, used: set<int>)
    requires forall i :: 0 <= i < |requested| ==> requested[i] !in used
    requires forall i, j :: 0 <= i < j < |requested| ==> requested[i] != requested[j]
    ensures Allocate(requested, used).ports == requested
  {
    if requested != [] {
      var p := requested[0];
      assert NextFree(p, used) == p;
      var tail := requested[1..];
      forall i | 0 <= i < |tail|
        ensures tail[i] !in used + {p}
      {
        assert tail[i] == requested[i + 1];
      }
      forall i, j | 0 <= i < j < |tail|
        ensures tail[i] != tail[j]
      {
        assert tail[i] == requested[i + 1] && tail[j] == requested[j + 1];
      }
      AllocateKeepsFreeDistinct(tail, used + {p});
    }
  }

  /** `[3000, 3000]` against an empty set becomes `[3000, 3001]`. */
  lemma DuplicateRequestExample()
    ensures Allocate([3000, 3000], {}).ports == [3000, 3001]
    ensures Allocate([3000, 3000], {}).used == {3000, 3001}
  {
    assert NextFree(3000, {}) == 3000;
    assert NextFree(3000, {3000}) == 3001 by {
      assert NextFree(3001, {3000}) == 3001;
    }
    assert [3000, 3000][1..] == [3000];
  }

  /** `[8080]` against `{8080, 8081, 8082}` becomes `[8083]`. */
  lemma CascadingCollisionExample()
    ensures Allocate([8080], {8080, 8081, 8082}).ports == [8083]
  {
    var u := {8080, 8081, 8082};
    assert NextFree(8080, u) == 8083 by {
      NextFreeUnique(8080, u, 8083);
    }
  }

  /**
   * The `map` over `forwardPorts` in `adjustPorts`: each port that is already used is
   * sent through `FindNextAvailablePort`, and every assigned port, changed or not, is
   * added to the set in place.
   */
  method AdjustPortList(requested: seq<int>, usedPorts: set<int>)
    returns (newPorts: seq<int>, usedAfter: set<int>)
    ensures Allocation(newPorts, usedAfter) == Allocate(requested, usedPorts)
  {
    newPorts := [];
    usedAfter := usedPorts;
    var i := 0;
    while i < |requested|
      invariant 0 <= i <= |requested|
      invariant Pass(requested, i, usedAfter, newPorts) == Pass(requested, 0, usedPorts, [])
      decreases |requested| - i
    {
      var newPort := MapPort(requested[i], usedAfter);
      usedAfter := usedAfter + {newPort};
      newPorts := newPorts + [newPort];
      i := i + 1;
    }
    PassIsAllocate(requested, 0, usedPorts, []);
    assert requested[0..] == requested;
    assert [] + Allocate(requested, usedPorts).ports == Allocate(requested, usedPorts).ports;
  }

  /**
   * The callback of that `map`, up to its update of the set: a port already used is
   * moved to the next free one, any other is kept.
   */
  method MapPort(port: int, usedPorts: set<int>) returns (newPort: int)
    ensures port !in usedPorts ==> newPort == port
    ensures newPort == NextFree(port, usedPorts)
  {
    if port in usedPorts {
      newPort := FindNextAvailablePort(port, usedPorts);
    } else {
      newPort := port;
    }
  }

  /**
   * The pass from position `i` on, with the ports `done` already assigned and the set
   * `used` in force: the loop's own view of `Allocate`.
   */
  function Pass(requested: seq<int>, i: nat, used: set<int>, done: seq<int>): Allocation
    requires i <= |requested|
    decreases |requested| - i
  {
    if i == |requested| then
      Allocation(done, used)
    else
      var p := NextFree(requested[i], used);
      Pass(requested, i + 1, used + {p}, done + [p])
  }

  /** The pass from position `i` assigns the rest of the list as `Allocate` does. */
  lemma {:induction false} PassIsAllocate(requested: seq<int>, i: nat, used: set<int>, done: seq<int>)
    requires i <= |requested|
    ensures var rest := Allocate(requested[i..], used);
            Pass(requested, i, used, done) == Allocation(done + rest.ports, rest.used)
    decreases |requested| - i
  {
    if i == |requested| {
      assert requested[i..] == [];
      assert done + [] == done;
    } else {
      var p := NextFree(requested[i], used);
      PassIsAllocate(requested, i + 1, used + {p}, done + [p]);
      var tail := requested[i..];
      assert tail != [] && tail[0] == requested[i];
      assert tail[1..] == requested[i + 1..];
      var rest := Allocate(requested[i + 1..], used + {p});
      assert done + [p] + rest.ports == done + ([p] + rest.ports);
    }
  }
}
