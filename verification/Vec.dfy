/** The growable byte vector that encoders write to. */
module Vec {
  import opened Common

  class ByteVec {
    var data: seq<Byte>
    var cap: nat

    ghost predicate Valid()
      reads this
    {
      |data| <= cap
    }

    constructor (cap: nat)
      ensures Valid() && data == [] && this.cap == cap
    {
      data, this.cap := [], cap;
    }

    method Clear()
      modifies this`data
      ensures data == []
    {
      data := [];
    }

    /** `vec->len = n` for a shorter length. */
    method Truncate(n: nat)
      requires n <= |data|
      modifies this`data
      ensures data == old(data)[..n]
    {
      data := data[..n];
    }

    /** `vec_fast_append_8`: the caller has to leave room, which the source asserts. */
    method FastAppend8(value: Byte)
      requires |data| < cap
      modifies this`data
      ensures data == old(data) + [value]
    {
      data := data + [value];
    }

    /** A `memcpy` behind the last byte, without growing. */
    method CopyBehind(bytes: seq<Byte>)
      requires |data| + |bytes| <= cap
      modifies this`data
      ensures data == old(data) + bytes
    {
      data := data + bytes;
    }

    /** `vec_append` with `vec__grow`. */
    method Append(bytes: seq<Byte>)
      requires Valid()
      modifies this
      ensures Valid() && cap >= old(cap) && data == old(data) + bytes
    {
      if |data| + |bytes| >= cap && 2 * (|data| + |bytes|) > cap {
        cap := 2 * (|data| + |bytes|);
      }
      data := data + bytes;
    }
  }
}
