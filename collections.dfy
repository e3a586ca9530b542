/** Facts about slices and sets shared by the loops that walk a collection. */
module Collections {

  lemma TakeSnoc<T>(s: seq<T>, i: nat)
    requires i < |s|
    ensures s[..i + 1] == s[..i] + [s[i]]
    ensures s[..i + 1][..i] == s[..i]
  {
  }

  lemma TakeAll<T>(s: seq<T>)
    ensures s[..|s|] == s
  {
  }

  lemma AppendSnoc<T>(a: seq<T>, s: seq<T>, i: nat)
    requires i < |s|
    ensures a + s[..i + 1] == a + s[..i] + [s[i]]
  {
    TakeSnoc(s, i);
  }

  /** Moving one element from the pending part to the finished part of a partition. */
  lemma MoveOne<T>(todo: set<T>, done: set<T>, all: set<T>, x: T)
    requires todo + done == all && todo !! done && x in todo
    ensures (todo - {x}) + (done + {x}) == all && (todo - {x}) !! (done + {x})
  {
  }
}
