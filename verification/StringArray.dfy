/** The growable string array of utils.c that holds the key masks. */
module StringArrays {

  class StringArray {
    var size: nat
    var capacity: nat
    var data: array<string>

    ghost predicate Valid()
      reads this
    {
      size <= capacity == data.Length
    }

    /** The strings in use, in the order they were added. */
    ghost function Contents(): seq<string>
      reads this, data
      requires Valid()
    {
      data[..size]
    }

    /** `stringArrayInit` for an empty array. */
    constructor (capacity: nat)
      ensures Valid() && fresh(data)
      ensures Contents() == [] && this.capacity == capacity
    {
      size := 0;
      this.capacity := capacity;
      data := new string[capacity];
    }

    /** `stringArrayAdd`: doubles the storage when it is full. Doubling a capacity of zero would make no room. */
    method Add(value: string)
      requires Valid() && capacity > 0
      modifies this, data
      ensures Valid() && (data == old(data) || fresh(data))
      ensures Contents() == old(Contents()) + [value]
      ensures capacity == if old(size) == old(capacity) then 2 * old(capacity) else old(capacity)
    {
      if size >= capacity {
        var larger := new string[capacity * 2];
        forall i | 0 <= i < size {
          larger[i] := data[i];
        }
        assert larger[..size] == data[..size];
        data := larger;
        capacity := capacity * 2;
      }
      data[size] := value;
      size := size + 1;
    }

    /** `stringArrayClean`: forgets the strings and keeps the storage. */
    method Clean()
      requires Valid()
      modifies this`size
      ensures Valid() && Contents() == [] && capacity == old(capacity)
    {
      size := 0;
    }

    /** `stringArrayGetLength` */
    method GetLength() returns (n: nat)
      requires Valid()
      ensures n == |Contents()|
    {
      n := size;
    }

    /** `stringArrayGetElement` */
    method GetElement(index: nat) returns (value: string)
      requires Valid() && index < |Contents()|
      ensures value == Contents()[index]
    {
      value := data[index];
    }
  }
}
