/** `compare_clients` (analyze.py:42-46): the INNs only in the new list ("added") and
    the INNs only in the old list ("removed"). Python builds each as
    `list(set(a) - set(b))`, whose order depends on string hashing; the model lists
    each INN once, at its first occurrence in the input. */
module Reconciliation {
  import opened Sequences

  /** The distinct elements of xs that are not in exclude, in first-occurrence order. */
  function DistinctNotIn(xs: seq<string>, exclude: set<string>): (r: seq<string>)
    ensures NoDuplicates(r)
    ensures forall x :: x in r <==> x in xs && x !in exclude
  {
    if xs == [] then []
    else if xs[0] in exclude then DistinctNotIn(xs[1..], exclude)
    else [xs[0]] + DistinctNotIn(xs[1..], exclude + {xs[0]})
  }

  datatype Diff = Diff(added: seq<string>, removed: seq<string>)

  /** `added, removed = compare_clients(old_inn, new_inn)`. */
  function CompareClients(oldInn: seq<string>, newInn: seq<string>): (d: Diff)
    ensures NoDuplicates(d.added) && NoDuplicates(d.removed)
    ensures Elements(d.added) == Elements(newInn) - Elements(oldInn)
    ensures Elements(d.removed) == Elements(oldInn) - Elements(newInn)
  {
    Diff(DistinctNotIn(newInn, Elements(oldInn)), DistinctNotIn(oldInn, Elements(newInn)))
  }

  /** No INN is reported both as added and as removed. */
  lemma AddedRemovedDisjoint(oldInn: seq<string>, newInn: seq<string>)
    ensures Elements(CompareClients(oldInn, newInn).added) !! Elements(CompareClients(oldInn, newInn).removed)
  {
  }

  /** Two lists with the same INNs, in any order and with any repetition, differ in nothing. */
  lemma SameElementsNoDiff(oldInn: seq<string>, newInn: seq<string>)
    requires Elements(oldInn) == Elements(newInn)
    ensures CompareClients(oldInn, newInn) == Diff([], [])
  {
    var d := CompareClients(oldInn, newInn);
    assert |d.added| == 0 by { ElementsBound(d.added); }
    assert |d.removed| == 0 by { ElementsBound(d.removed); }
  }

  /** Swapping the two lists swaps the two results. */
  lemma CompareClientsSwap(a: seq<string>, b: seq<string>)
    ensures CompareClients(a, b).added == CompareClients(b, a).removed
    ensures CompareClients(a, b).removed == CompareClients(b, a).added
  {
  }

  /** Each result is no longer than the number of distinct INNs it is drawn from,
      which is no more than the length of that list. */
  lemma DiffSizeBound(oldInn: seq<string>, newInn: seq<string>)
    ensures |CompareClients(oldInn, newInn).added| <= |Elements(newInn)| <= |newInn|
    ensures |CompareClients(oldInn, newInn).removed| <= |Elements(oldInn)| <= |oldInn|
  {
    var d := CompareClients(oldInn, newInn);
    ElementsBound(d.added);
    ElementsBound(d.removed);
    ElementsBound(newInn);
    ElementsBound(oldInn);
    assert Elements(d.added) <= Elements(newInn);
    assert Elements(d.removed) <= Elements(oldInn);
  }
}
