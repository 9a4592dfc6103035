/**
 * The travel-time relation between hubs and the nearest-hub search used to
 * reroute a trip whose destination is full.
 *
 * The complete directed graph of `simulation_code.py` is represented by the square
 * matrix it encodes: `travel[u][v]` is the one-way time in whole minutes
 * from hub `u` to hub `v`; the diagonal is never read, since the graph has
 * no self-loops.
 */
module Network {

  datatype Option<T> = None | Some(value: T)

  /** A travel-time matrix over `|travel|` hubs: one row and one column per hub. */
  predicate IsTravelMatrix(travel: seq<seq<int>>)
  {
    forall u :: 0 <= u < |travel| ==> |travel[u]| == |travel|
  }

  /**
   * The outward scan of the reroute search, from `offset` on: at each offset
   * below `n` it probes `dest - offset`, then `dest + offset`, and stops at
   * the first probe that is a hub index. Stock levels play no part.
   */
  function SearchFrom(n: nat, dest: int, offset: nat): Option<int>
    decreases n - offset
  {
    if offset >= n then None
    else if 0 <= dest - offset < n then Some(dest - offset)
    else if 0 <= dest + offset < n then Some(dest + offset)
    else SearchFrom(n, dest, offset + 1)
  }

  /** The hub a trip bound for the full hub `dest` is sent on to, if any. */
  function NearestHub(n: nat, dest: nat): (c: Option<int>)
    requires dest < n
    ensures c.Some? ==> 0 <= c.value < n && c.value != dest
    ensures c.None? <==> n == 1
  {
    SearchFromInRange(n, dest, 1);
    SearchFrom(n, dest, 1)
  }

  /** Every hub the scan can return is a real hub other than `dest`. */
  lemma {:induction false} SearchFromInRange(n: nat, dest: int, offset: nat)
    requires offset >= 1
    ensures SearchFrom(n, dest, offset).Some? ==>
      0 <= SearchFrom(n, dest, offset).value < n && SearchFrom(n, dest, offset).value != dest
    decreases n - offset
  {
    if offset < n && !(0 <= dest - offset < n) && !(0 <= dest + offset < n) {
      SearchFromInRange(n, dest, offset + 1);
    }
  }

  /** The closed form of the search: the left neighbour if there is one, else the right one. */
  lemma NearestHubClosedForm(n: nat, dest: nat)
    requires dest < n
    ensures NearestHub(n, dest) ==
      if n == 1 then None
      else if dest >= 1 then Some(dest - 1)
      else Some(dest + 1)
  {
  }

  /** The tie-break of the search: the lower neighbour is chosen whenever it exists. */
  lemma LowerNeighbourFirst()
    ensures NearestHub(10, 5) == Some(4)
    ensures NearestHub(10, 0) == Some(1)
    ensures NearestHub(10, 9) == Some(8)
    ensures NearestHub(1, 0) == None
  {
  }

  /**
   * The search as the engine runs it: offsets from 1 upwards, the two
   * probes of an offset in order, leaving both loops at the first hub index.
   */
  method FindCandidate(n: nat, dest: nat) returns (candidate: Option<int>)
    requires dest < n
    ensures candidate == NearestHub(n, dest)
    ensures candidate == if n == 1 then None
                         else if dest >= 1 then Some(dest - 1)
                         else Some(dest + 1)
  {
    candidate := None;
    var offset := 1;
    while offset < n
      invariant 1 <= offset
      invariant candidate.None?
      invariant SearchFrom(n, dest, offset) == SearchFrom(n, dest, 1)
      decreases n - offset
    {
      var k := 0;
      while k < 2
        invariant 0 <= k <= 2
        invariant candidate.None?
        invariant k >= 1 ==> !(0 <= dest - offset < n)
        invariant k >= 2 ==> !(0 <= dest + offset < n)
      {
        var newHub := if k == 0 then dest - offset else dest + offset;
        if 0 <= newHub < n {
          candidate := Some(newHub);
          break;
        }
        k := k + 1;
      }
      if candidate.Some? {
        break;
      }
      offset := offset + 1;
    }
    NearestHubClosedForm(n, dest);
  }
}
