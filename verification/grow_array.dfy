/** The growable array that holds every list of the two servers: a buffer, a length and a
    capacity that doubles, with shifting insert and remove. `Items` is its sequence view. */
module GrowArrays {

  class GrowArray<T(0)> {
    var data: array<T>
    var len: nat

    ghost predicate Valid()
      reads this
    {
      len <= data.Length
    }

    ghost function Items(): (s: seq<T>)
      requires Valid()
      reads this, data
      ensures |s| == len
    {
      data[..len]
    }

    constructor ()
      ensures Valid() && fresh(data)
      ensures Items() == []
    {
      data := new T[0];
      len := 0;
    }

    /** Makes room for `needed` elements: the capacity starts at 8 and doubles. */
    method Reserve(needed: nat)
      requires Valid()
      modifies this`data
      ensures Valid() && data.Length >= needed
      ensures data == old(data) || fresh(data)
      ensures Items() == old(Items())
    {
      if data.Length >= needed {
        return;
      }
      var capacity := if data.Length > 0 then data.Length * 2 else 8;
      while capacity < needed
        invariant capacity > 0 && capacity >= data.Length
      {
        capacity := capacity * 2;
      }
      var bigger := new T[capacity];
      forall i | 0 <= i < len {
        bigger[i] := data[i];
      }
      data := bigger;
      assert data[..len] == old(data[..len]);
    }

    method Push(value: T)
      requires Valid()
      modifies this, data
      ensures Valid() && (data == old(data) || fresh(data))
      ensures Items() == old(Items()) + [value]
    {
      Reserve(len + 1);
      ghost var before := data[..len];
      data[len] := value;
      len := len + 1;
      assert data[..len] == before + [value];
    }

    method Insert(index: nat, value: T) returns (ok: bool)
      requires Valid()
      modifies this, data
      ensures Valid() && (data == old(data) || fresh(data))
      ensures ok <==> index <= old(len)
      ensures Items() == if ok then old(Items())[..index] + [value] + old(Items())[index..] else old(Items())
    {
      if index > len {
        return false;
      }
      Reserve(len + 1);
      ghost var before := data[..len];
      forall i | index < i <= len {
        data[i] := data[i - 1];
      }
      data[index] := value;
      len := len + 1;
      assert data[..len] == before[..index] + [value] + before[index..];
      return true;
    }

    /** Removing an index that is out of range changes nothing. */
    method Remove(index: nat)
      requires Valid()
      modifies this`len, data
      ensures Valid() && data == old(data)
      ensures Items() == if index < old(len) then old(Items())[..index] + old(Items())[index + 1..] else old(Items())
    {
      if index >= len {
        return;
      }
      ghost var before := data[..len];
      forall i | index <= i < len - 1 {
        data[i] := data[i + 1];
      }
      len := len - 1;
      assert data[..len] == before[..index] + before[index + 1..];
    }
  }
}
