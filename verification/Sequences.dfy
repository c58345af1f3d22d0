/** The elements of a sequence as a set. */
module Sequences {
  function Elements<T>(s: seq<T>): set<T> {
    set x | x in s
  }

  lemma ElementsSnoc<T>(s: seq<T>, x: T)
    ensures Elements(s + [x]) == Elements(s) + {x}
  {
  }

  lemma ElementsEmpty<T>()
    ensures Elements<T>([]) == {} && forall x: T :: Elements([x]) == {x}
  {
  }
}
