/** Logs of what was sealed or accepted, in order. */
module Logs {
  predicate NoRepeats<T(==)>(log: seq<T>) {
    forall i, j :: 0 <= i < j < |log| ==> log[i] != log[j]
  }

  lemma PrefixHasNoRepeats<T>(log: seq<T>, more: seq<T>)
    requires NoRepeats(log + more)
    ensures NoRepeats(log)
  {
    forall i, j | 0 <= i < j < |log|
      ensures log[i] != log[j]
    {
      assert (log + more)[i] != (log + more)[j];
    }
  }

  lemma LastIsNew<T>(log: seq<T>, p: T)
    requires NoRepeats(log + [p])
    ensures p !in log
  {
    var longer := log + [p];
    forall i | 0 <= i < |log|
      ensures log[i] != p
    {
      assert longer[i] != longer[|log|];
    }
  }

  lemma OneMoreRepeats<T>(log: seq<T>, p: T)
    ensures NoRepeats(log + [p]) <==> NoRepeats(log) && p !in log
  {
    if NoRepeats(log + [p]) {
      PrefixHasNoRepeats(log, [p]);
      LastIsNew(log, p);
    }
  }
}
