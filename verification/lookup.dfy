/**
 The linear id lookup of the V0 pass: the position of the first occurrence of an id in the
 vector of original indices of the tracks written so far in the event, or -1.
 */
module Lookup {

  /** The first position of `id` in `ids`, or -1 when `id` does not occur. */
  function FirstIndexOf(id: int, ids: seq<int>): (r: int)
    ensures -1 <= r < |ids|
    ensures r == -1 <==> id !in ids
    ensures 0 <= r ==> ids[r] == id && forall j :: 0 <= j < r ==> ids[j] != id
  {
    if |ids| == 0 then -1
    else if ids[0] == id then 0
    else
      var k := FirstIndexOf(id, ids[1..]);
      if k == -1 then -1 else k + 1
  }

  /** The loop of the task's lookup: scan from the front, stop at the first match. */
  method GetRowDaughters(daughId: int, vecId: seq<int>) returns (row: int)
    ensures -1 <= row < |vecId|
    ensures row == -1 <==> daughId !in vecId
    ensures 0 <= row ==> vecId[row] == daughId
    ensures forall j :: 0 <= j < row ==> vecId[j] != daughId
    ensures row == FirstIndexOf(daughId, vecId)
  {
    row := -1;
    var i := 0;
    while i < |vecId|
      invariant 0 <= i <= |vecId|
      invariant row == -1
      invariant forall j :: 0 <= j < i ==> vecId[j] != daughId
    {
      if vecId[i] == daughId {
        row := i;
        break;
      }
      i := i + 1;
    }
  }

  /** Appending ids behind the first match does not move it; an id absent from the
      prefix is found in the appended part, shifted by the prefix length. */
  lemma {:induction false} FirstIndexOfAppend(id: int, ids: seq<int>, more: seq<int>)
    ensures id in ids ==> FirstIndexOf(id, ids + more) == FirstIndexOf(id, ids)
    ensures id !in ids && id in more ==> FirstIndexOf(id, ids + more) == |ids| + FirstIndexOf(id, more)
    ensures id !in ids && id !in more ==> FirstIndexOf(id, ids + more) == -1
  {
    var r := FirstIndexOf(id, ids + more);
    if id in ids {
      var k := FirstIndexOf(id, ids);
      assert (ids + more)[k] == id;
      assert forall j :: 0 <= j < k ==> (ids + more)[j] == ids[j];
    } else if id in more {
      var k := FirstIndexOf(id, more);
      assert (ids + more)[|ids| + k] == id;
      assert forall j :: 0 <= j < |ids| ==> (ids + more)[j] == ids[j];
      assert forall j :: |ids| <= j < |ids| + k ==> (ids + more)[j] == more[j - |ids|];
    } else {
      assert forall j :: 0 <= j < |ids + more| ==> (ids + more)[j] in ids || (ids + more)[j] in more;
    }
  }
}
