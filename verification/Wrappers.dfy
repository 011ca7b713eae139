module Wrappers {
  /** A value that may be missing. */
  datatype Option<+T> = None | Some(value: T)

  lemma HeadTail<T>(s: seq<T>)
    requires s != []
    ensures s == [s[0]] + s[1..] && (forall x {:trigger x in s} :: x in s && x != s[0] ==> x in s[1..])
  {
  }

  lemma ConcatAssoc<T>(a: seq<T>, b: seq<T>, c: seq<T>)
    ensures a + (b + c) == (a + b) + c
  {
  }
}
