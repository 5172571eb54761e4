/** The thread-local scratch memory that executing plans share. */
module ScratchMemory {

  class Scratch<T> {
    var rader: array<T>
    var bluestein: array<T>
    /** One buffer per nesting level of Cooley-Tukey plans; those up to active are in use. */
    var stack: seq<array<T>>
    var active: int

    /** The buffers no plan is using. */
    function Free(): set<array<T>>
      reads this
    {
      set i | 0 <= i < |stack| && i > active :: stack[i]
    }

    ghost predicate Valid()
      reads this
    {
      && -1 <= active < |stack|
      && rader != bluestein
      && (forall i :: 0 <= i < |stack| ==> stack[i] != rader && stack[i] != bluestein)
      && (forall i, j :: 0 <= i < j < |stack| ==> stack[i] != stack[j])
    }

    /** The buffers in use since the old state are the same ones, and no other has come in use. */
    twostate predicate Kept()
      requires old(Valid())
      reads this
    {
      && Valid() && active == old(active)
      && stack[..active + 1] == old(stack[..active + 1])
      && forall b :: b in Free() ==> b in old(Free()) || fresh(b)
    }

    constructor (z: T)
      ensures Valid() && active == -1 && fresh(rader) && fresh(bluestein) && Free() == {}
    {
      rader := new T[0](_ => z);
      bluestein := new T[0](_ => z);
      stack := [];
      active := -1;
    }

    /** A buffer of at least count elements for the next nesting level. */
    method Push(z: T, count: nat) returns (buffer: array<T>)
      requires Valid()
      modifies this
      ensures Valid() && active == old(active) + 1 && buffer == stack[active] && buffer.Length >= count
      ensures stack[..active] == old(stack[..active + 1])
      ensures forall b :: b in Free() ==> b in old(Free())
      ensures buffer in old(Free()) || fresh(buffer)
      ensures rader == old(rader) && bluestein == old(bluestein)
      ensures old(active + 1 < |stack| && stack[active + 1].Length >= count) ==> stack == old(stack)
    {
      active := active + 1;
      if |stack| == active {
        var empty := new T[0](_ => z);
        stack := stack + [empty];
      }
      if stack[active].Length < count {
        var larger := new T[count](_ => z);
        stack := stack[active := larger];
      }
      buffer := stack[active];
    }

    method Release()
      requires Valid() && active >= 0
      modifies this`active
      ensures Valid() && active == old(active) - 1
    {
      active := active - 1;
    }

    method GetRader(z: T, count: nat) returns (buffer: array<T>)
      requires Valid()
      modifies this`rader
      ensures Valid() && buffer == rader && buffer.Length >= count
      ensures if old(rader.Length) >= count then rader == old(rader) else fresh(rader) && rader.Length == count
    {
      if rader.Length < count {
        rader := new T[count](_ => z);
      }
      buffer := rader;
    }

    method GetBluestein(z: T, count: nat) returns (buffer: array<T>)
      requires Valid()
      modifies this`bluestein
      ensures Valid() && buffer == bluestein && buffer.Length >= count
      ensures if old(bluestein.Length) >= count then bluestein == old(bluestein) else fresh(bluestein) && bluestein.Length == count
    {
      if bluestein.Length < count {
        bluestein := new T[count](_ => z);
      }
      buffer := bluestein;
    }
  }
}
