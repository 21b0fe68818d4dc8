// Shared vocabulary of the model: optional values, sequences without
// repetition, and handles for engine scene-graph nodes.
module Common {

  datatype Option<T> = None | Some(value: T)

  /** A scene-graph node is identified by its handle; two handles are the
      same node exactly when they are equal. */
  type NodeId = nat

  /** No element of `s` appears twice. */
  ghost predicate NoDup<T>(s: seq<T>) {
    forall i, j :: 0 <= i < j < |s| ==> s[i] != s[j]
  }

  lemma NoDupPrefix<T>(s: seq<T>, k: nat)
    requires NoDup(s) && k <= |s|
    ensures NoDup(s[..k])
  {
  }

  lemma NoDupAppend<T>(s: seq<T>, x: T)
    requires NoDup(s) && x !in s
    ensures NoDup(s + [x])
  {
  }
}
