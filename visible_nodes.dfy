/**
 * The state the search panel keeps across renders (src/main.js, window.onload): the set of
 * visible nodes, which a click on a result row toggles in place, the class of each row that
 * shows whether its node is visible, and the largest node total seen so far.
 */
module VisibleNodes {
  import opened IntMath

  /** A node's hash, the key of `visibleNodes`. */
  type Hash = string

  /** The map after a click on the row of `hash`: the entry is deleted when present and
      added, with `node`, when absent; no other entry changes. */
  function Toggled<N>(visible: map<Hash, N>, hash: Hash, node: N): (r: map<Hash, N>)
    ensures hash in r <==> hash !in visible
    ensures hash in r ==> r[hash] == node
    ensures forall h :: h != hash ==> (h in r <==> h in visible)
    ensures forall h :: h != hash && h in visible ==> r[h] == visible[h]
  {
    if hash in visible then visible - {hash} else visible[hash := node]
  }

  /** Two clicks on one row restore the set of visible hashes; when the node was hidden they
      restore the map itself. */
  lemma ToggleTwice<N>(visible: map<Hash, N>, hash: Hash, node: N)
    ensures Toggled(Toggled(visible, hash, node), hash, node).Keys == visible.Keys
    ensures hash !in visible ==> Toggled(Toggled(visible, hash, node), hash, node) == visible
    ensures hash in visible ==>
      Toggled(Toggled(visible, hash, node), hash, node) == visible[hash := node]
  {
  }

  /** The classes of a row: `resultRow`, the type label, and `visible` or `hidden`. */
  function RowClasses<N>(typeLabel: string, hash: Hash, visible: map<Hash, N>): (classes: seq<string>)
    ensures |classes| == 3 && classes[0] == "resultRow" && classes[1] == typeLabel
    ensures classes[2] == "visible" <==> hash in visible
    ensures classes[2] == "hidden" <==> hash !in visible
  {
    ["resultRow", typeLabel, if hash in visible then "visible" else "hidden"]
  }

  /** A click flips the last class of the clicked row and of no other row. */
  lemma ToggleFlipsOneRow<N>(visible: map<Hash, N>, hash: Hash, node: N, other: Hash, typeLabel: string)
    ensures RowClasses(typeLabel, hash, Toggled(visible, hash, node))[2]
         != RowClasses(typeLabel, hash, visible)[2]
    ensures other != hash ==>
      RowClasses(typeLabel, other, Toggled(visible, hash, node))
      == RowClasses(typeLabel, other, visible)
  {
  }

  /** The panel's state: `visibleNodes` maps the hash of every visible node to the node, and
      `maxTotal` is the largest total a search has reported. */
  class SearchPanel<N> {
    var visibleNodes: map<Hash, N>
    var maxTotal: int

    constructor ()
      ensures visibleNodes == map[] && maxTotal == 0
    {
      visibleNodes := map[];
      maxTotal := 0;
    }

    /** The click handler of the row of `hash`. */
    method ToggleRow(hash: Hash, node: N)
      modifies this
      ensures visibleNodes == Toggled(old(visibleNodes), hash, node)
      ensures maxTotal == old(maxTotal)
    {
      if hash in visibleNodes {
        visibleNodes := visibleNodes - {hash};
      } else {
        visibleNodes := visibleNodes[hash := node];
      }
    }

    /** At the end of a render `maxTotal` takes the larger of its value and the reported total:
        the value never decreases, bounds every total seen, and is one of them or its old
        value. */
    method RecordTotal(total: int)
      modifies this
      ensures maxTotal >= old(maxTotal) && maxTotal >= total
      ensures maxTotal == old(maxTotal) || maxTotal == total
      ensures visibleNodes == old(visibleNodes)
    {
      maxTotal := Max(maxTotal, total);
    }

    /** The class of the row of `hash` that reflects its visibility. */
    function RowClass(hash: Hash): (c: string)
      reads this
      ensures c == "visible" <==> hash in visibleNodes
      ensures c == "hidden" <==> hash !in visibleNodes
    {
      RowClasses("", hash, visibleNodes)[2]
    }
  }

  /** After any sequence of renders, `maxTotal` is at least every total reported. */
  function MaxTotalAfter(start: int, totals: seq<int>): (m: int)
    ensures m >= start
    ensures forall i :: 0 <= i < |totals| ==> m >= totals[i]
    ensures m == start || exists i :: 0 <= i < |totals| && m == totals[i]
    decreases |totals|
  {
    if totals == [] then start else MaxTotalAfter(Max(start, totals[0]), totals[1..])
  }
}
