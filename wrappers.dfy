/** Python's `None`-or-value, used wherever the source has an optional
    value, and two facts about sequences the modules lean on. */
module Wrappers {
  datatype Option<+T> = None | Some(value: T)

  /** The value, if any, as a sequence of length zero or one. */
  function ToSeq<T>(o: Option<T>): (r: seq<T>)
    ensures |r| <= 1 && (|r| == 1 <==> o.Some?)
    ensures o.Some? ==> r == [o.value]
  {
    if o.Some? then [o.value] else []
  }

  /** Regrouping a concatenation; called where a loop appends a block to
      lines it has already built. */
  lemma AppendAssoc<T>(a: seq<T>, b: seq<T>, c: seq<T>)
    ensures (a + b) + c == a + (b + c)
  {
  }

  /** A non-empty sequence is its head followed by its tail; called where
      the context holds quantifiers that make the solver wander. */
  lemma HeadTail<T>(s: seq<T>)
    requires s != []
    ensures [s[0]] + s[1..] == s
  {
  }
}
