/** Python list indexing: an index i of a list of length len is valid when
    -(len as int) <= i < len, and a negative index counts from the end. Anything else
    raises IndexError. */
module Indexing {
  import opened Wrappers

  /** The position a Python index denotes, or None when indexing raises. */
  function PyIndex(len: nat, i: int): (r: Option<nat>)
    ensures r.Some? <==> -(len as int) <= i < len
    ensures r.Some? ==> r.value < len && (r.value == i || r.value == i + len)
    ensures 0 <= i < len ==> r == Some(i)
  {
    if 0 <= i < len then Some(i)
    else if -(len as int) <= i < 0 then Some(i + len)
    else None
  }

  /** `xs[i]`, or None when it raises. */
  function PyRead<T>(xs: seq<T>, i: int): (r: Option<T>)
    ensures r.Some? <==> -(|xs| as int) <= i < |xs|
    ensures 0 <= i < |xs| ==> r == Some(xs[i])
  {
    match PyIndex(|xs|, i)
    case None => None
    case Some(j) => Some(xs[j])
  }
}
