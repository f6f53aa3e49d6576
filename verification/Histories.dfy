/** Properties that single events break and mend: whether one is left broken depends on the last event to touch it. */
module Histories {
  /** What an event does to the property. */
  datatype Mark = Kept | Mended | Broken

  /** The i-th event broke it, and none has touched it since. */
  ghost predicate BrokenSince(marks: seq<Mark>, i: nat) {
    i < |marks| && marks[i].Broken? && forall j :: i < j < |marks| ==> marks[j].Kept?
  }

  ghost predicate LeftBroken(marks: seq<Mark>) {
    exists i: nat :: BrokenSince(marks, i)
  }

  lemma LeftBrokenSnoc(marks: seq<Mark>, last: Mark)
    ensures LeftBroken(marks + [last]) <==> last.Broken? || (last.Kept? && LeftBroken(marks))
  {
    var all := marks + [last];
    assert forall j :: 0 <= j < |marks| ==> all[j] == marks[j];
    if i: nat :| BrokenSince(all, i) {
      assert i < |marks| ==> all[|marks|].Kept? && BrokenSince(marks, i);
    }
    if last.Broken? {
      assert BrokenSince(all, |marks|);
    }
    if i: nat :| BrokenSince(marks, i) {
      assert last.Kept? ==> BrokenSince(all, i);
    }
  }
}
