/**
 The growable array (include/containers/Vector.h), for an element type with a destructor.

 A slot of the buffer is raw memory, a live object, or an object whose value was moved away.
 Construction is only allowed on raw memory, assignment and destruction only on objects.
 */
module Vectors {

  datatype Slot<T> = Raw | Live(value: T) | Husk

  /** Placement new. */
  method Construct<T>(a: array<Slot<T>>, i: nat, v: T)
    requires i < a.Length && a[i].Raw?
    modifies a
    ensures a[i] == Live(v) && forall k :: 0 <= k < a.Length && k != i ==> a[k] == old(a[k])
  {
    a[i] := Live(v);
  }

  /** Placement new from an object that gives its value away. */
  method MoveConstruct<T>(a: array<Slot<T>>, i: nat, b: array<Slot<T>>, j: nat)
    requires i < a.Length && a[i].Raw? && j < b.Length && b[j].Live?
    modifies a, b
    ensures a[i] == old(b[j]) && b[j] == Husk
    ensures forall k :: 0 <= k < a.Length && k != i && (a == b ==> k != j) ==> a[k] == old(a[k])
    ensures forall k :: 0 <= k < b.Length && k != j && (a == b ==> k != i) ==> b[k] == old(b[k])
  {
    a[i] := b[j];
    b[j] := Husk;
  }

  method MoveAssign<T>(a: array<Slot<T>>, i: nat, j: nat)
    requires i < a.Length && j < a.Length && i != j && !a[i].Raw? && a[j].Live?
    modifies a
    ensures a[i] == old(a[j]) && a[j] == Husk && forall k :: 0 <= k < a.Length && k != i && k != j ==> a[k] == old(a[k])
  {
    a[i] := a[j];
    a[j] := Husk;
  }

  method Assign<T>(a: array<Slot<T>>, i: nat, v: T)
    requires i < a.Length && !a[i].Raw?
    modifies a
    ensures a[i] == Live(v) && forall k :: 0 <= k < a.Length && k != i ==> a[k] == old(a[k])
  {
    a[i] := Live(v);
  }

  method Destroy<T>(a: array<Slot<T>>, i: nat)
    requires i < a.Length && !a[i].Raw?
    modifies a
    ensures a[i] == Raw && forall k :: 0 <= k < a.Length && k != i ==> a[k] == old(a[k])
  {
    a[i] := Raw;
  }

  // ---------------------------------------------------------------------------
  // What the buffer holds while elements are on the move
  // ---------------------------------------------------------------------------

  function Splice<T>(c: seq<T>, pos: nat, more: seq<T>): seq<T>
    requires pos <= |c|
  {
    c[..pos] + more + c[pos..]
  }

  function Cut<T>(c: seq<T>, first: nat, last: nat): seq<T>
    requires first <= last <= |c|
  {
    c[..first] + c[last..]
  }

  /** Exactly the slots of `c` are live. */
  function Settled<T>(c: seq<T>, k: nat): Slot<T> {
    if k < |c| then Live(c[k]) else Raw
  }

  /** All elements from `p` on have moved `n` slots to the right. */
  function Shifted<T>(c: seq<T>, n: nat, p: nat, k: nat): Slot<T>
    requires p <= |c|
  {
    if k < p then Live(c[k])
    else if k < p + n then (if k < |c| then Husk else Raw)
    else Settled(c, k - n)
  }

  /** The gap is raw memory except for the first `i` of the new elements. */
  function Filled<T>(c: seq<T>, more: seq<T>, p: nat, i: nat, k: nat): Slot<T>
    requires p <= |c| && i <= |more|
  {
    if k < p then Live(c[k])
    else if k < p + i then Live(more[k - p])
    else if k < p + |more| then Raw
    else Settled(c, k - |more|)
  }

  lemma SplicedAt<T>(c: seq<T>, p: nat, more: seq<T>)
    requires p <= |c|
    ensures |Splice(c, p, more)| == |c| + |more|
    ensures forall k :: 0 <= k ==> Filled(c, more, p, |more|, k) == Settled(Splice(c, p, more), k)
  {
  }

  /** The elements before `p` that follow the cut have moved to the left. */
  function Closing<T>(c: seq<T>, first: nat, last: nat, p: nat, k: nat): Slot<T>
    requires first <= last <= p <= |c|
  {
    if k < first then Live(c[k])
    else if k < p - (last - first) then Live(c[k + (last - first)])
    else if last <= k < p then Husk
    else Settled(c, k)
  }

  lemma CutAt<T>(c: seq<T>, first: nat, last: nat, k: nat)
    requires first <= last <= |c|
    ensures |Cut(c, first, last)| == |c| - (last - first)
    ensures Settled(Cut(c, first, last), k)
      == if |c| - (last - first) <= k then Raw else Closing(c, first, last, |c|, k)
  {
    if first <= k < |c| - (last - first) {
      assert Cut(c, first, last)[k] == c[last..][k - first];
    }
  }

  function Grown(cap: nat, required: nat): (r: nat)
    ensures r >= required && r >= 16 && r >= cap
  {
    var quarter := if cap * 5 / 4 < 16 then 16 else cap * 5 / 4;
    if quarter < required then required else quarter
  }

  class Vector<T> {
    var buffer: array<Slot<T>>   // the capacity is the length
    var size: nat

    /** Exactly the slots before the end are live. */
    ghost predicate Valid()
      reads this, buffer
    {
      && size <= buffer.Length
      && forall k :: 0 <= k < buffer.Length ==> if k < size then buffer[k].Live? else buffer[k].Raw?
    }

    ghost function Contents(): (c: seq<T>)
      requires Valid()
      reads this, buffer
      ensures |c| == size && forall k :: 0 <= k < size ==> buffer[k] == Live(c[k])
    {
      seq(size, k requires 0 <= k < size && Valid() reads this, buffer => buffer[k].value)
    }

    constructor ()
      ensures Valid() && Contents() == [] && fresh(buffer)
    {
      buffer := new Slot<T>[0];
      size := 0;
    }

    /** Grows by a quarter, to at least 16 and to what is required; nothing is left in the old buffer. */
    method EnsureSize(required: nat)
      requires Valid()
      modifies this, buffer
      ensures Valid() && Contents() == old(Contents())
      ensures required <= old(buffer.Length) ==> buffer == old(buffer)
      ensures required > old(buffer.Length) ==> fresh(buffer) && buffer.Length == Grown(old(buffer.Length), required)
      ensures required > old(buffer.Length) ==> forall k :: 0 <= k < old(buffer.Length) ==> old(buffer)[k] == Raw
    {
      if required <= buffer.Length {
        return;
      }
      var cap := buffer.Length * 5 / 4;
      if cap < 16 {
        cap := 16;
      }
      if cap < required {
        cap := required;
      }
      var data := new Slot<T>[cap](_ => Raw);
      ghost var c := Contents();
      var i := 0;
      while i < size
        modifies data, buffer
        invariant 0 <= i <= size
        invariant forall k :: 0 <= k < cap ==> data[k] == if k < i then Live(c[k]) else Raw
        invariant forall k :: 0 <= k < buffer.Length ==> buffer[k] == if k < i then Raw else Settled(c, k)
      {
        MoveConstruct(data, i, buffer, i);
        Destroy(buffer, i);
        i := i + 1;
      }
      buffer := data;
    }

    method PushBack(v: T)
      requires Valid()
      modifies this, buffer
      ensures Valid() && Contents() == old(Contents()) + [v] && (buffer == old(buffer) || fresh(buffer))
    {
      if size == buffer.Length {
        EnsureSize(size + 1);
      }
      Construct(buffer, size, v);
      size := size + 1;
    }

    method PopBack()
      requires Valid() && size > 0
      modifies this, buffer
      ensures Valid() && Contents() == old(Contents())[..old(size) - 1] && buffer == old(buffer)
    {
      size := size - 1;
      Destroy(buffer, size);
    }

    method Insert(pos: nat, v: T)
      requires Valid() && pos <= size
      modifies this, buffer
      ensures Valid() && Contents() == Splice(old(Contents()), pos, [v]) && (buffer == old(buffer) || fresh(buffer))
    {
      if pos == size {
        PushBack(v);
        return;
      }
      if size == buffer.Length {
        EnsureSize(size + 1);
      }
      ghost var c := Contents();
      ShiftOne(pos, c);
      PutOne(pos, v, c);
      size := size + 1;
      SplicedAt(c, pos, [v]);
    }

    /** The last element moves into raw memory, the others by assignment. */
    method ShiftOne(pos: nat, ghost c: seq<T>)
      requires Valid() && pos < size < buffer.Length && c == Contents()
      modifies buffer
      ensures forall k :: 0 <= k < buffer.Length ==> buffer[k] == Shifted(c, 1, pos, k)
    {
      MoveConstruct(buffer, size, buffer, size - 1);
      var p := size - 1;
      while p > pos
        invariant pos <= p < size
        invariant forall k :: 0 <= k < buffer.Length ==> buffer[k] == Shifted(c, 1, p, k)
      {
        MoveAssign(buffer, p, p - 1);
        p := p - 1;
      }
    }

    method PutOne(pos: nat, v: T, ghost c: seq<T>)
      requires pos < |c| < buffer.Length && forall k :: 0 <= k < buffer.Length ==> buffer[k] == Shifted(c, 1, pos, k)
      modifies buffer
      ensures forall k :: 0 <= k < buffer.Length ==> buffer[k] == Filled(c, [v], pos, 1, k)
    {
      Assign(buffer, pos, v);
    }

    method InsertRange(pos: nat, more: seq<T>)
      requires Valid() && pos <= size
      modifies this, buffer
      ensures Valid() && Contents() == Splice(old(Contents()), pos, more) && (buffer == old(buffer) || fresh(buffer))
    {
      if more == [] {
        return;
      }
      var n := |more|;
      if size + n > buffer.Length {
        EnsureSize(size + n);
      }
      ghost var c := Contents();
      ShiftRight(pos, n, c);
      ClearGap(pos, n, c);
      FillGap(pos, more, c);
      size := size + n;
      SplicedAt(c, pos, more);
    }

    /** Destroys what the shift left in the gap. */
    method ClearGap(pos: nat, n: nat, ghost c: seq<T>)
      requires pos <= size == |c| && size + n <= buffer.Length
      requires forall k :: 0 <= k < buffer.Length ==> buffer[k] == Shifted(c, n, pos, k)
      modifies buffer
      ensures forall k :: 0 <= k < buffer.Length ==>
        buffer[k] == if pos <= k < pos + n then Raw else Shifted(c, n, pos, k)
    {
      var overlap := if size - pos < n then size - pos else n;
      var i := 0;
      while i < overlap
        invariant 0 <= i <= overlap
        invariant forall k :: 0 <= k < buffer.Length ==>
          buffer[k] == if pos <= k < pos + i then Raw else Shifted(c, n, pos, k)
      {
        Destroy(buffer, pos + i);
        i := i + 1;
      }
    }

    method FillGap(pos: nat, more: seq<T>, ghost c: seq<T>)
      requires pos <= size == |c| && size + |more| <= buffer.Length
      requires forall k :: 0 <= k < buffer.Length ==>
        buffer[k] == if pos <= k < pos + |more| then Raw else Shifted(c, |more|, pos, k)
      modifies buffer
      ensures forall k :: 0 <= k < buffer.Length ==> buffer[k] == Filled(c, more, pos, |more|, k)
    {
      var i := 0;
      while i < |more|
        invariant 0 <= i <= |more|
        invariant forall k :: 0 <= k < buffer.Length ==> buffer[k] == Filled(c, more, pos, i, k)
      {
        Construct(buffer, pos + i, more[i]);
        i := i + 1;
      }
    }

    /** The elements from `pos` on move `n` slots: into raw memory behind the end, by assignment before it. */
    method ShiftRight(pos: nat, n: nat, ghost c: seq<T>)
      requires Valid() && pos <= size && 0 < n && size + n <= buffer.Length && c == Contents()
      modifies buffer
      ensures forall k :: 0 <= k < buffer.Length ==> buffer[k] == Shifted(c, n, pos, k)
    {
      var p := size;
      while p > pos
        invariant pos <= p <= size
        invariant forall k :: 0 <= k < buffer.Length ==> buffer[k] == Shifted(c, n, p, k)
      {
        p := p - 1;
        if p + n >= size {
          MoveConstruct(buffer, p + n, buffer, p);
        } else {
          MoveAssign(buffer, p + n, p);
        }
      }
    }

    /** The elements from `last` on move to `first` by assignment. */
    method ShiftLeft(first: nat, last: nat, ghost c: seq<T>)
      requires Valid() && first < last <= size && c == Contents()
      modifies buffer
      ensures forall k :: 0 <= k < buffer.Length ==> buffer[k] == Closing(c, first, last, size, k)
    {
      var p := last;
      while p != size
        invariant last <= p <= size
        invariant forall k :: 0 <= k < buffer.Length ==> buffer[k] == Closing(c, first, last, p, k)
      {
        MoveAssign(buffer, p - (last - first), p);
        p := p + 1;
      }
    }

    /** The moved-from slots at the end are destroyed. */
    method DestroyTail(first: nat, last: nat, ghost c: seq<T>)
      requires first < last <= size == |c| <= buffer.Length
      requires forall k :: 0 <= k < buffer.Length ==> buffer[k] == Closing(c, first, last, size, k)
      modifies buffer
      ensures forall k :: 0 <= k < buffer.Length ==>
        buffer[k] == if size - (last - first) <= k then Raw else Closing(c, first, last, size, k)
    {
      var p := size - (last - first);
      while p != size
        invariant size - (last - first) <= p <= size
        invariant forall k :: 0 <= k < buffer.Length ==>
          buffer[k] == if size - (last - first) <= k < p then Raw else Closing(c, first, last, size, k)
      {
        Destroy(buffer, p);
        p := p + 1;
      }
    }

    method Erase(first: nat, last: nat)
      requires Valid() && first <= last <= size
      modifies this, buffer
      ensures Valid() && Contents() == Cut(old(Contents()), first, last) && buffer == old(buffer)
    {
      if first == last {
        return;
      }
      ghost var c := Contents();
      ShiftLeft(first, last, c);
      DestroyTail(first, last, c);
      size := size - (last - first);
      forall k | 0 <= k < buffer.Length
        ensures |Cut(c, first, last)| == size && buffer[k] == Settled(Cut(c, first, last), k)
      {
        CutAt(c, first, last, k);
      }
    }

    /** Cuts off the end or adds default values. */
    method Resize(newSize: nat, blank: T)
      requires Valid()
      modifies this, buffer
      ensures Valid() && size == newSize && (buffer == old(buffer) || fresh(buffer))
      ensures Contents() == if newSize <= old(size) then old(Contents())[..newSize]
                            else old(Contents()) + seq(newSize - old(size), _ => blank)
    {
      if newSize < size {
        Erase(newSize, size);
        return;
      }
      EnsureSize(newSize);
      while size < newSize
        invariant size <= newSize <= buffer.Length && Valid()
        invariant Contents() == old(Contents()) + seq(size - old(size), _ => blank)
        invariant buffer == old(buffer) || fresh(buffer)
      {
        Construct(buffer, size, blank);
        size := size + 1;
      }
    }
  }

  /** Inserting what was cut out restores the contents. */
  lemma SpliceUndoesCut<T>(c: seq<T>, first: nat, last: nat)
    requires first <= last <= |c|
    ensures Splice(Cut(c, first, last), first, c[first..last]) == c
  {
    assert Cut(c, first, last)[..first] == c[..first] && Cut(c, first, last)[first..] == c[last..];
  }
}
