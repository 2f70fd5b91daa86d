/** What both halves use: optional values, and sequences with insertion and removal. */
module Common {

  datatype Option<+T> = None | Some(value: T)

  ghost predicate Distinct<T>(q: seq<T>) {
    forall i, j :: 0 <= i < j < |q| ==> q[i] != q[j]
  }

  function InsertAt<T>(q: seq<T>, k: nat, x: T): seq<T>
    requires k <= |q|
  {
    q[..k] + [x] + q[k..]
  }

  function RemoveAt<T>(q: seq<T>, k: nat): (r: seq<T>)
    requires k < |q|
    ensures |r| == |q| - 1
    ensures forall i :: 0 <= i < |r| ==> r[i] == q[if i < k then i else i + 1]
  {
    q[..k] + q[k + 1..]
  }

  lemma InsertedMembers<T>(q: seq<T>, k: nat, t: T)
    requires k <= |q|
    ensures forall x :: x in InsertAt(q, k, t) <==> x in q || x == t
  {
    assert q == q[..k] + q[k..];
  }

  lemma InsertedDistinct<T>(q: seq<T>, k: nat, t: T)
    requires k <= |q| && Distinct(q) && t !in q
    ensures Distinct(InsertAt(q, k, t))
  {
    var r := InsertAt(q, k, t);
    assert forall i :: 0 <= i < |r| ==> r[i] == if i < k then q[i] else if i == k then t else q[i - 1];
    assert forall i :: 0 <= i < |q| ==> q[i] in q;
  }
}
