/** Facts about finite sets used by the loops that visit a set one element at a time. */
module Sets {
  /** Moving one element from the elements still to visit to the visited ones
      keeps the two apart and their union the same, and shrinks what is left. */
  lemma MoveOne<T>(done: set<T>, todo: set<T>, x: T)
    requires x in todo && done !! todo
    ensures (done + {x}) !! (todo - {x})
    ensures (done + {x}) + (todo - {x}) == done + todo
    ensures |todo - {x}| < |todo|
  {
  }
}
