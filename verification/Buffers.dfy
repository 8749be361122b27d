/** A growable byte buffer that callers fill and drain in place (`BytesMut`). */
module Buffers {
  import opened Bytes

  class Buffer {
    var data: bytes

    constructor (data: bytes)
      ensures this.data == data
    {
      this.data := data;
    }

    method Advance(n: nat)
      requires n <= |data|
      modifies this
      ensures data == old(data)[n..]
    {
      data := data[n..];
    }

    method Clear()
      modifies this
      ensures data == []
    {
      data := [];
    }

    method Put(s: bytes)
      modifies this
      ensures data == old(data) + s
    {
      data := data + s;
    }
  }
}
