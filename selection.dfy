/**
 * Python's `max(xs, key=f)`: it walks the items left to right and replaces
 * its candidate only when an item's key is strictly larger, so among items
 * with the largest key the first one wins.
 */
module Selection {

  /**
   * The position `max` picks in a non-empty sequence of keys: its key is at
   * least every other key, and every earlier key is strictly smaller.
   */
  function FirstMaxIndex(keys: seq<nat>): (r: nat)
    requires |keys| > 0
    ensures r < |keys|
    ensures forall j :: 0 <= j < |keys| ==> keys[j] <= keys[r]
    ensures forall j :: 0 <= j < r ==> keys[j] < keys[r]
  {
    if |keys| == 1 then 0
    else
      var best := FirstMaxIndex(keys[..|keys| - 1]);
      if keys[|keys| - 1] > keys[best] then |keys| - 1 else best
  }

  /** The two properties of FirstMaxIndex determine the position uniquely. */
  lemma FirstMaxIndexUnique(keys: seq<nat>, r: nat)
    requires r < |keys|
    requires forall j :: 0 <= j < |keys| ==> keys[j] <= keys[r]
    requires forall j :: 0 <= j < r ==> keys[j] < keys[r]
    ensures FirstMaxIndex(keys) == r
  {
  }
}
