/** What every module needs: optional values (Go's nil, SQL's NULL) and regrouped concatenations. */
module Wrappers {
  datatype Option<+T> = None | Some(value: T)

  lemma Associative<M>(a: seq<M>, b: seq<M>, c: seq<M>)
    ensures a + b + c == a + (b + c)
  {
  }
}
