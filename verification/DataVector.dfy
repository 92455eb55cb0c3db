/** `utils::DataVector` with an owned buffer (`include/utils/data_vector.hpp`). */
module DataVector {
  class DataVector<T(0)> {
    /** The buffer; its length is the capacity. */
    var data: array<T>
    var size: nat

    ghost predicate Valid()
      reads this
    {
      size <= data.Length
    }

    ghost function Contents(): seq<T>
      reads this, data
      requires Valid()
    {
      data[..size]
    }

    constructor ()
      ensures Valid() && Contents() == [] && data.Length == 0 && fresh(data)
    {
      data, size := new T[0], 0;
    }

    function Capacity(): nat
      reads this
    {
      data.Length
    }

    method Clear()
      modifies this`size
      ensures size == 0
    {
      size := 0;
    }

    /** Grows the buffer and keeps what is in it. */
    method Reserve(cap: nat)
      requires Valid()
      modifies this`data
      ensures Valid() && Contents() == old(Contents())
      ensures Capacity() == if old(Capacity()) < cap then cap else old(Capacity())
      ensures data == old(data) || fresh(data)
    {
      if data.Length < cap {
        var swap := new T[cap];
        var i := 0;
        while i < size
          invariant data == old(data) && i <= size && swap[..i] == data[..i]
        {
          swap[i] := data[i];
          i := i + 1;
        }
        data := swap;
      }
    }

    /** Sets the number of elements; the common prefix survives, whether or not the buffer moves. */
    method Resize(n: nat)
      requires Valid()
      modifies this
      ensures Valid() && size == n
      ensures n <= old(size) ==> Contents() == old(Contents())[..n] && data == old(data)
      ensures n >= old(size) ==> Contents()[..old(size)] == old(Contents())
      ensures Capacity() == if old(Capacity()) < n then n else old(Capacity())
      ensures data == old(data) || fresh(data)
    {
      if n > data.Length {
        Reserve(n);
      }
      size := n;
    }
  }
}
