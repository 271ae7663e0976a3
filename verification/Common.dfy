/** Small types shared by the components. */
module Common {
  datatype Option<+T> = None | Some(value: T)

  type byte = b: int | 0 <= b < 256

  type Body = seq<byte>

  /** A store's ETag: equal ETags mean equal bodies, and none is empty. */
  function ETagOf(body: Body): (etag: string)
    ensures etag != ""
  {
    "#" + seq(|body|, i requires 0 <= i < |body| => body[i] as char)
  }

  lemma ETagInjective(a: Body, b: Body)
    requires ETagOf(a) == ETagOf(b)
    ensures a == b
  {
    assert forall i :: 0 <= i < |a| ==> ETagOf(a)[i + 1] == a[i] as char;
    assert forall i :: 0 <= i < |b| ==> ETagOf(b)[i + 1] == b[i] as char;
    forall i | 0 <= i < |a|
      ensures a[i] == b[i]
    {
      assert (a[i] as char) as int == a[i];
      assert ETagOf(a)[i + 1] == ETagOf(b)[i + 1];
    }
  }
}
