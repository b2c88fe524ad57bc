/**
 * The bulk-delete page (frontend/src/index.js): a list of checkboxes and one button. A click
 * with no checkbox ticked ticks them all; otherwise it sends one DELETE request per ticked
 * checkbox, to the id of its parent element, reloading the page once every request of that
 * click has succeeded. Once a checkbox changes or the button is clicked, the button reads
 * "Select All" when nothing is ticked and "Delete" otherwise; until then it keeps the value
 * the page gave it, since loading the page does not relabel it.
 *
 * Requests and responses are events: a click returns the list it deletes, and `Respond` is the
 * arrival of one response, successful or not. `location.reload()` is the flag `reloaded`.
 */
module BulkDelete {

  const SelectAll: string := "Select All"
  const Delete: string := "Delete"

  /** An element of class `delete` as the page finds it: its checked state and the id of its
      parent element. Loading clears the checked state whatever it was, so the page keeps
      only the ids. */
  datatype Checkbox = Checkbox(checked: bool, parentId: string)

  /** The checked count: how many flags are set; zero exactly when none is. */
  function CheckedCount(flags: seq<bool>): (n: nat)
    ensures n <= |flags|
    ensures n == 0 <==> forall i :: 0 <= i < |flags| ==> !flags[i]
    decreases |flags|
  {
    if flags == [] then 0
    else CheckedCount(flags[..|flags| - 1]) + (if flags[|flags| - 1] then 1 else 0)
  }

  /** The delete list, as positions: exactly the positions of the set flags, in increasing
      order. */
  function CheckedIndices(flags: seq<bool>): (ix: seq<nat>)
    ensures |ix| == CheckedCount(flags)
    ensures forall k :: 0 <= k < |ix| ==> ix[k] < |flags| && flags[ix[k]]
    ensures forall k, l :: 0 <= k < l < |ix| ==> ix[k] < ix[l]
    ensures forall i :: 0 <= i < |flags| && flags[i] ==> i in ix
    decreases |flags|
  {
    if flags == [] then []
    else
      var n := |flags| - 1;
      CheckedIndices(flags[..n]) + (if flags[n] then [n] else [])
  }

  /** The label `update()` gives the button: "Select All" when no checkbox is ticked,
      "Delete" when one is. */
  function ButtonLabel(flags: seq<bool>): (value: string)
    ensures value == SelectAll <==> forall i :: 0 <= i < |flags| ==> !flags[i]
    ensures value == Delete <==> exists i :: 0 <= i < |flags| && flags[i]
  {
    if CheckedCount(flags) == 0 then SelectAll else Delete
  }

  /** The ids at the given positions, in the same order. */
  function IdsAt(ids: seq<string>, positions: seq<nat>): (r: seq<string>)
    requires forall k :: 0 <= k < |positions| ==> positions[k] < |ids|
    ensures |r| == |positions|
    ensures forall k :: 0 <= k < |r| ==> r[k] == ids[positions[k]]
    decreases |positions|
  {
    if positions == [] then []
    else
      var n := |positions| - 1;
      IdsAt(ids, positions[..n]) + [ids[positions[n]]]
  }

  lemma CheckedIndicesExtend(flags: seq<bool>, i: nat)
    requires i < |flags|
    ensures CheckedIndices(flags[..i + 1]) == CheckedIndices(flags[..i]) + (if flags[i] then [i] else [])
  {
    assert flags[..i + 1][..i] == flags[..i];
  }

  // ---------------------------------------------------------------------------------------
  // The requests of one click

  /** The requests of one click in delete mode: their URLs, the click's own `deletingCount`,
      and how many of them have had no response yet. */
  datatype Batch = Batch(urls: seq<string>, deletingCount: nat, unanswered: nat)

  /** A response is outstanding for every request not answered, and every unanswered request
      is still counted: failures leave the count above the number still outstanding. */
  predicate BatchValid(b: Batch)
  {
    b.unanswered <= b.deletingCount <= |b.urls|
  }

  /** The batch a click creates: the countdown starts at the length of the delete list, and
      every request is sent and unanswered. */
  function NewBatch(urls: seq<string>): (b: Batch)
    ensures BatchValid(b) && b.urls == urls
    ensures b.deletingCount == |urls| && b.unanswered == |urls|
  {
    Batch(urls, |urls|, |urls|)
  }

  datatype Answer = Answer(batch: Batch, reload: bool)

  /** One response arrives. A failed one throws before the count changes; a successful one
      decrements it and reloads the page when it reaches zero. */
  function Answered(b: Batch, ok: bool): (a: Answer)
    requires BatchValid(b) && b.unanswered > 0
    ensures BatchValid(a.batch) && a.batch.urls == b.urls
    ensures a.batch.unanswered == b.unanswered - 1
    ensures !ok ==> a.batch.deletingCount == b.deletingCount && !a.reload
    ensures ok ==> a.batch.deletingCount == b.deletingCount - 1
    ensures a.reload <==> ok && a.batch.deletingCount == 0
  {
    var b1 := b.(unanswered := b.unanswered - 1);
    if !ok then Answer(b1, false)
    else
      var count := b.deletingCount - 1;
      Answer(b1.(deletingCount := count), count == 0)
  }

  /** The responses `oks` arrive in this order; the number of reloads they trigger. A batch
      reloads at most once, and only on its last outstanding response. */
  function Reloads(b: Batch, oks: seq<bool>): (n: nat)
    requires BatchValid(b) && |oks| <= b.unanswered
    ensures n <= 1
    ensures n == 1 ==> |oks| == b.unanswered
    decreases |oks|
  {
    if oks == [] then 0
    else
      var a := Answered(b, oks[0]);
      (if a.reload then 1 else 0) + Reloads(a.batch, oks[1..])
  }

  predicate AllSucceeded(oks: seq<bool>)
  {
    forall k :: 0 <= k < |oks| ==> oks[k]
  }

  lemma {:induction false} ReloadsCounted(b: Batch, oks: seq<bool>)
    requires BatchValid(b) && |oks| <= b.unanswered
    ensures Reloads(b, oks) ==
      if b.deletingCount > 0 && b.deletingCount == b.unanswered == |oks| && AllSucceeded(oks)
      then 1 else 0
    decreases |oks|
  {
    if oks != [] {
      var a := Answered(b, oks[0]);
      ReloadsCounted(a.batch, oks[1..]);
      if AllSucceeded(oks) {
        assert AllSucceeded(oks[1..]);
      } else if oks[0] {
        assert !AllSucceeded(oks[1..]);
      }
    }
  }

  /** Whatever order its responses arrive in, a click's batch reloads the page once if every
      one of its requests succeeds, and never otherwise, and not before the last response. */
  lemma ReloadOnceAfterAllSucceed(urls: seq<string>, oks: seq<bool>)
    requires |urls| > 0 && |oks| <= |urls|
    ensures Reloads(NewBatch(urls), oks) == if |oks| == |urls| && AllSucceeded(oks) then 1 else 0
  {
    ReloadsCounted(NewBatch(urls), oks);
  }

  // ---------------------------------------------------------------------------------------
  // The page

  class DeletePage {
    /** `checkboxes`: the checked flag of each `delete` element, in document order. */
    const checkboxes: array<bool>
    /** The id of each checkbox's parent element: the URL its DELETE request goes to. */
    const ids: seq<string>
    /** The button's label. */
    var buttonValue: string
    /** The batches of requests sent by the clicks in delete mode, oldest first. */
    var batches: seq<Batch>
    var reloaded: bool

    ghost predicate Valid()
      reads this
    {
      && checkboxes.Length == |ids|
      && forall k :: 0 <= k < |batches| ==> BatchValid(batches[k])
    }

    /** Loading the page: collects the elements in document order and clears every checkbox.
        The button keeps the value the page gave it. */
    constructor (elements: seq<Checkbox>, initialValue: string)
      ensures Valid() && fresh(checkboxes)
      ensures checkboxes.Length == |elements|
      ensures forall i :: 0 <= i < |elements| ==> ids[i] == elements[i].parentId && !checkboxes[i]
      ensures buttonValue == initialValue && batches == [] && !reloaded
    {
      var found := new bool[|elements|];
      var parents: seq<string> := [];
      var i := 0;
      while i < |elements|
        invariant 0 <= i <= |elements|
        invariant |parents| == i
        invariant forall j :: 0 <= j < i ==> parents[j] == elements[j].parentId
      {
        parents := parents + [elements[i].parentId];
        i := i + 1;
      }
      i := 0;
      while i < found.Length
        invariant 0 <= i <= found.Length
        invariant forall j :: 0 <= j < i ==> !found[j]
      {
        found[i] := false;
        i := i + 1;
      }
      checkboxes := found;
      ids := parents;
      buttonValue := initialValue;
      batches := [];
      reloaded := false;
    }

    /** Counts the ticked checkboxes, one by one. */
    method GetCheckedCount() returns (n: nat)
      ensures n == CheckedCount(checkboxes[..])
    {
      n := 0;
      var i := 0;
      while i < checkboxes.Length
        invariant 0 <= i <= checkboxes.Length
        invariant n == CheckedCount(checkboxes[..i])
      {
        assert checkboxes[..i + 1][..i] == checkboxes[..i];
        if checkboxes[i] {
          n := n + 1;
        }
        i := i + 1;
      }
      assert checkboxes[..i] == checkboxes[..];
    }

    /** Relabels the button from the current checkboxes. */
    method Update()
      modifies this
      ensures buttonValue == ButtonLabel(checkboxes[..])
      ensures batches == old(batches) && reloaded == old(reloaded)
    {
      var n := GetCheckedCount();
      if n == 0 {
        buttonValue := SelectAll;
      } else {
        buttonValue := Delete;
      }
    }

    /** The user ticks or clears checkbox `i`; its change handler relabels the button. */
    method Change(i: nat, checked: bool)
      requires Valid() && i < checkboxes.Length
      modifies this, checkboxes
      ensures Valid()
      ensures checkboxes[..] == old(checkboxes[..])[i := checked]
      ensures buttonValue == ButtonLabel(checkboxes[..])
      ensures batches == old(batches) && reloaded == old(reloaded)
    {
      checkboxes[i] := checked;
      Update();
    }

    /** A click on the button. With nothing ticked it ticks every checkbox and relabels the button;
        otherwise it changes no checkbox and sends a DELETE for each ticked one, in document
        order, as a new batch. Returns the positions of the checkboxes it deletes. */
    method Click() returns (deleteList: seq<nat>)
      requires Valid()
      modifies this, checkboxes
      ensures Valid()
      ensures reloaded == old(reloaded)
      ensures CheckedCount(old(checkboxes[..])) == 0 ==>
        && (forall i :: 0 <= i < checkboxes.Length ==> checkboxes[i])
        && buttonValue == (if checkboxes.Length == 0 then SelectAll else Delete)
        && deleteList == [] && batches == old(batches)
      ensures CheckedCount(old(checkboxes[..])) > 0 ==>
        && checkboxes[..] == old(checkboxes[..]) && buttonValue == old(buttonValue)
        && deleteList == CheckedIndices(old(checkboxes[..]))
        && batches == old(batches) + [NewBatch(IdsAt(ids, deleteList))]
    {
      var n := GetCheckedCount();
      if n == 0 {
        CheckAll();
        deleteList := [];
      } else {
        deleteList := DeleteChecked();
      }
    }

    /** The select-all branch: ticks every checkbox, then relabels the button. */
    method CheckAll()
      requires Valid()
      modifies this, checkboxes
      ensures Valid()
      ensures forall i :: 0 <= i < checkboxes.Length ==> checkboxes[i]
      ensures buttonValue == (if checkboxes.Length == 0 then SelectAll else Delete)
      ensures batches == old(batches) && reloaded == old(reloaded)
    {
      var i := 0;
      while i < checkboxes.Length
        invariant 0 <= i <= checkboxes.Length
        invariant forall j :: 0 <= j < i ==> checkboxes[j]
        modifies checkboxes
      {
        checkboxes[i] := true;
        i := i + 1;
      }
      Update();
      assert checkboxes.Length > 0 ==> checkboxes[..][0];
    }

    /** The delete branch: the ticked checkboxes in document order, and one request to the
        parent id of each, counted down by a new batch. */
    method DeleteChecked() returns (deleteList: seq<nat>)
      requires Valid()
      modifies this
      ensures Valid()
      ensures deleteList == CheckedIndices(checkboxes[..])
      ensures batches == old(batches) + [NewBatch(IdsAt(ids, deleteList))]
      ensures buttonValue == old(buttonValue) && reloaded == old(reloaded)
    {
      deleteList := [];
      var urls: seq<string> := [];
      var i := 0;
      while i < checkboxes.Length
        invariant 0 <= i <= checkboxes.Length
        invariant deleteList == CheckedIndices(checkboxes[..i])
        invariant urls == IdsAt(ids, deleteList)
        invariant unchanged(this)
      {
        CheckedIndicesExtend(checkboxes[..], i);
        if checkboxes[i] {
          deleteList := deleteList + [i];
          urls := urls + [ids[i]];
        }
        i := i + 1;
      }
      assert checkboxes[..i] == checkboxes[..];
      batches := batches + [NewBatch(urls)];
    }

    /** A response to one of the requests of batch `b` arrives. */
    method Respond(b: nat, ok: bool)
      requires Valid() && b < |batches| && batches[b].unanswered > 0
      modifies this
      ensures Valid()
      ensures var a := Answered(old(batches[b]), ok);
        batches == old(batches)[b := a.batch] && reloaded == (old(reloaded) || a.reload)
      ensures buttonValue == old(buttonValue)
    {
      var batch := batches[b];
      batch := batch.(unanswered := batch.unanswered - 1);
      if ok {
        batch := batch.(deletingCount := batch.deletingCount - 1);
        if batch.deletingCount == 0 {
          reloaded := true;
        }
      }
      batches := batches[b := batch];
    }
  }
}
