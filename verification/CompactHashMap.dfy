/**
 The hash map under the handle tables and the task dependences (include/containers/CompactHashMap.h).

 Items stand in one array in insertion order.  A second array holds the bucket heads, and each
 item the index of the next item of its bucket; -1 is the null pointer.
 */
module HashMaps {
  import opened Options

  const WORD := 0x1_0000_0000_0000_0000

  type Word = x: nat | x < WORD witness 0

  function Hash(key: Word): Word {
    (key + key / 32) % WORD
  }

  /** `h & mask` for the mask 2 * capacity - 1; the capacity is a power of two. */
  function Bucket(key: Word, buckets: nat): nat
    requires buckets > 0
  {
    Hash(key) % buckets
  }

  predicate PowerOfTwo(n: nat) {
    n == 1 || (n > 0 && n % 2 == 0 && PowerOfTwo(n / 2))
  }

  // ---------------------------------------------------------------------------
  // Reference: a linear scan
  // ---------------------------------------------------------------------------

  /** The first position of `key`, or the end. */
  function Scan(keys: seq<Word>, key: Word): nat {
    if keys == [] || keys[0] == key then 0 else 1 + Scan(keys[1..], key)
  }

  lemma {:induction false} ScanFinds(keys: seq<Word>, key: Word, i: nat)
    requires i <= |keys| && (forall j :: 0 <= j < i ==> keys[j] != key) && (i < |keys| ==> keys[i] == key)
    ensures Scan(keys, key) == i
  {
    if i > 0 {
      ScanFinds(keys[1..], key, i - 1);
    }
  }

  ghost predicate Distinct(keys: seq<Word>) {
    forall i, j :: 0 <= i < j < |keys| ==> keys[i] != keys[j]
  }

  // ---------------------------------------------------------------------------
  // Chains
  // ---------------------------------------------------------------------------

  /** The last of the keys in bucket `b`. */
  function LastIn(keys: seq<Word>, b: nat, buckets: nat): int
    requires buckets > 0
  {
    var n := |keys| - 1;
    if n < 0 then -1 else if Bucket(keys[n], buckets) == b then n else LastIn(keys[..n], b, buckets)
  }

  lemma {:induction false} LastInIsLast(keys: seq<Word>, b: nat, buckets: nat)
    requires buckets > 0
    ensures var r := LastIn(keys, b, buckets);
      && -1 <= r < |keys|
      && (r >= 0 ==> Bucket(keys[r], buckets) == b)
      && forall j :: r < j < |keys| ==> Bucket(keys[j], buckets) != b
  {
    var n := |keys| - 1;
    if n >= 0 && Bucket(keys[n], buckets) != b {
      LastInIsLast(keys[..n], b, buckets);
    }
  }

  /** Each head is the last item of its bucket, each link the last item of the same bucket before. */
  ghost predicate Chained(keys: seq<Word>, links: seq<int>, heads: seq<int>) {
    && |links| == |keys| && |heads| > 0
    && (forall b :: 0 <= b < |heads| ==> heads[b] == LastIn(keys, b, |heads|))
    && (forall i :: 0 <= i < |keys| ==> links[i] == LastIn(keys[..i], Bucket(keys[i], |heads|), |heads|))
  }

  /** Pushing one more item at the front of its chain. */
  lemma Link(keys: seq<Word>, links: seq<int>, heads: seq<int>, key: Word)
    requires Chained(keys, links, heads)
    ensures var b := Bucket(key, |heads|); Chained(keys + [key], links + [heads[b]], heads[b := |keys|])
  {
    var more := keys + [key];
    assert more[..|keys|] == keys;
    forall i | 0 <= i < |keys|
      ensures more[..i] == keys[..i]
    {
    }
  }

  /** The items that a walk from `it` visits. */
  function Walk(links: seq<int>, it: int): seq<int>
    requires it < |links| && forall i :: 0 <= i < |links| ==> links[i] < i
    decreases it
  {
    if it < 0 then [] else [it] + Walk(links, links[it])
  }

  lemma LinksDescend(keys: seq<Word>, links: seq<int>, heads: seq<int>)
    requires Chained(keys, links, heads)
    ensures forall i :: 0 <= i < |links| ==> -1 <= links[i] < i
    ensures forall b :: 0 <= b < |heads| ==> -1 <= heads[b] < |links|
  {
    forall i | 0 <= i < |links|
      ensures -1 <= links[i] < i
    {
      LastInIsLast(keys[..i], Bucket(keys[i], |heads|), |heads|);
    }
    forall b | 0 <= b < |heads|
      ensures -1 <= heads[b] < |links|
    {
      LastInIsLast(keys, b, |heads|);
    }
  }

  lemma {:induction false} WalkVisits(keys: seq<Word>, links: seq<int>, heads: seq<int>, n: nat, b: nat)
    requires Chained(keys, links, heads) && n <= |keys| && b < |heads|
    requires forall i :: 0 <= i < |links| ==> links[i] < i
    ensures LastIn(keys[..n], b, |heads|) < |links|
    ensures var it := LastIn(keys[..n], b, |heads|);
      forall i :: i in Walk(links, it) <==> 0 <= i < n && Bucket(keys[i], |heads|) == b
    decreases n
  {
    var it := LastIn(keys[..n], b, |heads|);
    LastInIsLast(keys[..n], b, |heads|);
    if it >= 0 {
      assert Bucket(keys[it], |heads|) == b;
      WalkVisits(keys, links, heads, it, b);
      forall i | 0 <= i < n
        ensures i in Walk(links, it) <==> Bucket(keys[i], |heads|) == b
      {
        assert it < i ==> keys[..n][i] == keys[i];
      }
    } else {
      forall i | 0 <= i < n
        ensures Bucket(keys[i], |heads|) != b
      {
        assert keys[..n][i] == keys[i];
      }
    }
  }

  /** The chain of each bucket holds exactly the items that hash to it. */
  lemma ChainHoldsBucket(keys: seq<Word>, links: seq<int>, heads: seq<int>, b: nat)
    requires Chained(keys, links, heads) && b < |heads|
    ensures (forall i :: 0 <= i < |links| ==> -1 <= links[i] < i) && heads[b] < |links|
    ensures forall i :: i in Walk(links, heads[b]) <==> 0 <= i < |keys| && Bucket(keys[i], |heads|) == b
  {
    LinksDescend(keys, links, heads);
    WalkVisits(keys, links, heads, |keys|, b);
    assert keys[..|keys|] == keys;
  }

  // ---------------------------------------------------------------------------
  // The map
  // ---------------------------------------------------------------------------

  datatype Item<V> = Item(key: Word, value: V, next: int)

  function Keys<V>(items: seq<Item<V>>): seq<Word> {
    seq(|items|, i requires 0 <= i < |items| => items[i].key)
  }

  function Links<V>(items: seq<Item<V>>): seq<int> {
    seq(|items|, i requires 0 <= i < |items| => items[i].next)
  }

  function Pairs<V>(items: seq<Item<V>>): seq<(Word, V)> {
    seq(|items|, i requires 0 <= i < |items| => (items[i].key, items[i].value))
  }

  lemma Appended<V>(items: seq<Item<V>>, more: Item<V>)
    ensures Keys(items + [more]) == Keys(items) + [more.key]
    ensures Links(items + [more]) == Links(items) + [more.next]
    ensures Pairs(items + [more]) == Pairs(items) + [(more.key, more.value)]
  {
  }

  class CompactHashMap<V> {
    const blank: V              // the default value of the type
    var items: array<Item<V>>   // the capacity is the length
    var heads: array<int>
    var size: nat

    /** The first `n` items are linked; the others are raw memory. */
    ghost predicate Linked(n: nat)
      reads this, items, heads
    {
      && n <= items.Length && heads.Length == 2 * items.Length
      && (items.Length > 0 ==> PowerOfTwo(heads.Length) && Chained(Keys(items[..n]), Links(items[..n]), heads[..]))
      && Distinct(Keys(items[..n]))
    }

    ghost predicate Valid()
      reads this, items, heads
    {
      Linked(size)
    }

    /** Keys and values in the order of iteration. */
    ghost function Contents(): seq<(Word, V)>
      requires size <= items.Length
      reads this, items
    {
      Pairs(items[..size])
    }

    constructor (blank: V)
      ensures Valid() && Contents() == [] && this.blank == blank && fresh(items) && fresh(heads)
    {
      this.blank := blank;
      items := new Item<V>[0];
      heads := new int[0];
      size := 0;
    }

    /** The position of `key` in the order of iteration, or the end. */
    method Find(key: Word) returns (r: nat)
      requires Valid()
      ensures r == Scan(Keys(items[..size]), key)
    {
      ghost var keys, links := Keys(items[..size]), Links(items[..size]);
      if heads.Length == 0 {
        return size;
      }
      var it := heads[Bucket(key, heads.Length)];
      SearchBegins(keys, links, heads[..], key);
      ghost var n: nat := size;
      while it != -1
        invariant Searching(keys, links, heads[..], key, n, it)
        decreases it
      {
        SearchGoesOn(keys, links, heads[..], key, n, it);
        if items[it].key == key {
          return it;
        }
        n, it := it, items[it].next;
      }
      SearchEnds(keys, links, heads[..], key, n);
      return size;
    }

    /** The value found for a key, as findPredefinedData looks it up, is that of the finite map. */
    method Lookup(key: Word) returns (r: Option<V>)
      requires Valid()
      ensures r == if key in AsMap(Contents()) then Some(AsMap(Contents())[key]) else None
    {
      var it := Find(key);
      ScanMeans(items[..size], key);
      PairsDistinct(items[..size]);
      PositionsAreLookups(Contents(), key);
      if it == size {
        return None;
      }
      assert Contents()[it] == (key, items[it].value);
      return Some(items[it].value);
    }

    /** Makes room for `newSize` items; true if they moved to larger arrays. */
    method ReHash(newSize: nat) returns (moved: bool)
      requires Valid() && newSize > size
      modifies this
      ensures size == newSize <= items.Length && Linked(old(size))
      ensures Pairs(items[..old(size)]) == old(Contents())
      ensures moved <==> newSize > old(items.Length)
      ensures if moved then fresh(items) && fresh(heads) else items == old(items) && heads == old(heads)
    {
      if newSize <= items.Length {
        size := newSize;
        return false;
      }
      var cap := Capacity(newSize);
      var p := new Item<V>[cap](_ => Item(0, blank, -1));
      var hp := new int[2 * cap](_ => -1);
      var i := 0;
      while i < size
        modifies p, hp
        invariant 0 <= i <= size
        invariant Moved(items[..], p[..], hp[..], i)
      {
        var b := Bucket(items[i].key, hp.Length);
        MoveOne(items[..], p[..], hp[..], i);
        p[i], hp[b] := items[i].(next := hp[b]), i;
        i := i + 1;
      }
      SameKeys(p[..size], items[..size]);
      items, heads, size := p, hp, newSize;
      return true;
    }

    /** Puts an item that no key equals at the end and at the front of its chain. */
    method Append(key: Word, value: V) returns (it: nat)
      requires Valid() && key !in Keys(items[..size])
      modifies this, items, heads
      ensures Valid() && (items == old(items) || fresh(items)) && (heads == old(heads) || fresh(heads))
      ensures it == old(size) && Contents() == old(Contents()) + [(key, value)]
    {
      var _ := ReHash(size + 1);
      it := size - 1;
      ghost var before, keys, links, hs := items[..it], Keys(items[..it]), Links(items[..it]), heads[..];
      SameKeys(before, old(items[..size]));
      var b := Bucket(key, heads.Length);
      var more := Item(key, value, heads[b]);
      Link(keys, links, hs, key);
      Appended(before, more);
      items[it] := more;
      heads[b] := it;
      assert items[..size] == before + [more] && heads[..] == hs[b := it];
    }

    /** Adds the pair unless the key is there; the position of the key, and whether it is new. */
    method Insert(key: Word, value: V) returns (it: nat, inserted: bool)
      requires Valid()
      modifies this, items, heads
      ensures Valid() && (items == old(items) || fresh(items)) && (heads == old(heads) || fresh(heads))
      ensures inserted <==> !HasKey(old(Contents()), key)
      ensures Contents() == if inserted then old(Contents()) + [(key, value)] else old(Contents())
      ensures it < size && Contents()[it].0 == key
    {
      it := Find(key);
      ScanMeans(items[..size], key);
      if it < size {
        return it, false;
      }
      it := Append(key, value);
      return it, true;
    }

    /** The position of the key; a new key gets the default value. */
    method At(key: Word) returns (it: nat)
      requires Valid()
      modifies this, items, heads
      ensures Valid() && (items == old(items) || fresh(items)) && (heads == old(heads) || fresh(heads))
      ensures Contents() == if HasKey(old(Contents()), key) then old(Contents()) else old(Contents()) + [(key, blank)]
      ensures it < size && Contents()[it].0 == key
    {
      var inserted;
      it, inserted := Insert(key, blank);
    }

    /** An assignment to the value that At refers to. */
    method Assign(it: nat, value: V)
      requires Valid() && it < size
      modifies items
      ensures Valid() && Contents() == old(Contents())[it := (old(Contents())[it].0, value)]
    {
      ghost var before := items[..size];
      items[it] := items[it].(value := value);
      assert Keys(items[..size]) == Keys(before) && Links(items[..size]) == Links(before);
    }

    /** Twice the old capacity, doubled until the items fit. */
    method Capacity(newSize: nat) returns (cap: nat)
      requires Valid() && newSize > items.Length
      ensures cap >= newSize && PowerOfTwo(2 * cap)
    {
      cap := items.Length * 2;
      if cap == 0 {
        cap := 16;
        assert PowerOfTwo(2) && PowerOfTwo(4) && PowerOfTwo(8) && PowerOfTwo(16);
      }
      while cap < newSize
        invariant cap > 0 && PowerOfTwo(2 * cap)
      {
        cap := cap * 2;
      }
    }
  }

  ghost predicate HasKey<V>(pairs: seq<(Word, V)>, key: Word) {
    exists i :: 0 <= i < |pairs| && pairs[i].0 == key
  }

  lemma SameKeys<V>(a: seq<Item<V>>, b: seq<Item<V>>)
    requires Pairs(a) == Pairs(b)
    ensures Keys(a) == Keys(b)
  {
    assert |Pairs(a)| == |a| && |Pairs(b)| == |b|;
    forall i | 0 <= i < |a|
      ensures a[i].key == b[i].key
    {
      assert Pairs(a)[i] == Pairs(b)[i];
    }
  }

  lemma {:induction false} ScanRange(keys: seq<Word>, key: Word)
    ensures Scan(keys, key) <= |keys|
    ensures Scan(keys, key) < |keys| ==> keys[Scan(keys, key)] == key
    ensures Scan(keys, key) == |keys| ==> key !in keys
  {
    if keys != [] && keys[0] != key {
      ScanRange(keys[1..], key);
    }
  }

  lemma ScanMeans<V>(items: seq<Item<V>>, key: Word)
    ensures var r := Scan(Keys(items), key);
      && r <= |items| && (r < |items| <==> HasKey(Pairs(items), key))
      && (r < |items| ==> Pairs(items)[r].0 == key) && (r == |items| ==> key !in Keys(items))
  {
    ScanRange(Keys(items), key);
    if HasKey(Pairs(items), key) {
      var i :| 0 <= i < |Pairs(items)| && Pairs(items)[i].0 == key;
      assert Keys(items)[i] == key;
    }
    if key in Keys(items) {
      var i :| 0 <= i < |items| && Keys(items)[i] == key;
      assert Pairs(items)[i].0 == key;
    }
  }

  /** The finite map that the pairs stand for. */
  function AsMap<V>(pairs: seq<(Word, V)>): map<Word, V> {
    if pairs == [] then map[]
    else AsMap(pairs[..|pairs| - 1])[pairs[|pairs| - 1].0 := pairs[|pairs| - 1].1]
  }

  ghost predicate DistinctKeys<V>(pairs: seq<(Word, V)>) {
    forall i, j :: 0 <= i < j < |pairs| ==> pairs[i].0 != pairs[j].0
  }

  lemma PairsDistinct<V>(items: seq<Item<V>>)
    requires Distinct(Keys(items))
    ensures DistinctKeys(Pairs(items))
  {
    forall i, j | 0 <= i < j < |items|
      ensures Pairs(items)[i].0 != Pairs(items)[j].0
    {
      assert Keys(items)[i] != Keys(items)[j];
    }
  }

  /** With distinct keys a position and a lookup are the same. */
  lemma {:induction false} PositionsAreLookups<V>(pairs: seq<(Word, V)>, key: Word)
    requires DistinctKeys(pairs)
    ensures key in AsMap(pairs) <==> HasKey(pairs, key)
    ensures forall i :: 0 <= i < |pairs| && pairs[i].0 == key ==> key in AsMap(pairs) && AsMap(pairs)[key] == pairs[i].1
    ensures |AsMap(pairs)| == |pairs|
  {
    if pairs != [] {
      var n := |pairs| - 1;
      PositionsAreLookups(pairs[..n], key);
      PositionsAreLookups(pairs[..n], pairs[n].0);
      assert pairs == pairs[..n] + [pairs[n]];
    }
  }

  lemma {:induction false} AssignmentIsUpdate<V>(pairs: seq<(Word, V)>, i: nat, value: V)
    requires DistinctKeys(pairs) && i < |pairs|
    ensures AsMap(pairs[i := (pairs[i].0, value)]) == AsMap(pairs)[pairs[i].0 := value]
  {
    var n := |pairs| - 1;
    var more := pairs[i := (pairs[i].0, value)];
    if i < n {
      AssignmentIsUpdate(pairs[..n], i, value);
      assert more[..n] == pairs[..n][i := (pairs[i].0, value)];
    } else {
      assert more[..n] == pairs[..n];
    }
  }

  /** The first `n` of `items` stand in `p`, linked to the buckets of `hp`. */
  ghost predicate Moved<V>(items: seq<Item<V>>, p: seq<Item<V>>, hp: seq<int>, n: nat) {
    && n <= |items| && n <= |p|
    && Chained(Keys(p[..n]), Links(p[..n]), hp)
    && Pairs(p[..n]) == Pairs(items[..n])
  }

  lemma MoveOne<V>(items: seq<Item<V>>, p: seq<Item<V>>, hp: seq<int>, n: nat)
    requires Moved(items, p, hp, n) && n < |items| && n < |p|
    ensures var b := Bucket(items[n].key, |hp|); Moved(items, p[n := items[n].(next := hp[b])], hp[b := n], n + 1)
  {
    var b := Bucket(items[n].key, |hp|);
    var more := items[n].(next := hp[b]);
    assert p[n := more][..n + 1] == p[..n] + [more] && items[..n + 1] == items[..n] + [items[n]];
    Appended(p[..n], more);
    Appended(items[..n], items[n]);
    Link(Keys(p[..n]), Links(p[..n]), hp, more.key);
  }

  // ---------------------------------------------------------------------------
  // Walking a chain
  // ---------------------------------------------------------------------------

  /** The walk for `key` has come to `it`: the items from `n` on do not have that key. */
  ghost predicate Searching(keys: seq<Word>, links: seq<int>, heads: seq<int>, key: Word, n: nat, it: int) {
    && Chained(keys, links, heads) && Distinct(keys) && n <= |keys|
    && it == LastIn(keys[..n], Bucket(key, |heads|), |heads|)
    && forall j :: n <= j < |keys| ==> keys[j] != key
  }

  lemma SearchBegins(keys: seq<Word>, links: seq<int>, heads: seq<int>, key: Word)
    requires Chained(keys, links, heads) && Distinct(keys)
    ensures Searching(keys, links, heads, key, |keys|, heads[Bucket(key, |heads|)])
  {
    assert keys[..|keys|] == keys;
  }

  lemma SearchGoesOn(keys: seq<Word>, links: seq<int>, heads: seq<int>, key: Word, n: nat, it: int)
    requires Searching(keys, links, heads, key, n, it) && it != -1
    ensures 0 <= it < |keys| && links[it] < it
    ensures if keys[it] == key then Scan(keys, key) == it else Searching(keys, links, heads, key, it, links[it])
  {
    Skipped(keys, key, n, it, |heads|);
    LinksDescend(keys, links, heads);
    if keys[it] == key {
      ScanFinds(keys, key, it);
    }
  }

  lemma SearchEnds(keys: seq<Word>, links: seq<int>, heads: seq<int>, key: Word, n: nat)
    requires Searching(keys, links, heads, key, n, -1)
    ensures Scan(keys, key) == |keys|
  {
    Skipped(keys, key, n, -1, |heads|);
    ScanFinds(keys, key, |keys|);
  }

  /** Between the bound `n` and the last item before it of the bucket, no item has the key. */
  lemma Skipped(keys: seq<Word>, key: Word, n: nat, it: int, buckets: nat)
    requires buckets > 0 && n <= |keys| && it == LastIn(keys[..n], Bucket(key, buckets), buckets)
    ensures -1 <= it < n && (it >= 0 ==> Bucket(keys[it], buckets) == Bucket(key, buckets))
    ensures forall j :: it < j < n ==> keys[j] != key
  {
    LastInIsLast(keys[..n], Bucket(key, buckets), buckets);
    forall j | it < j < n
      ensures keys[j] != key
    {
      assert keys[..n][j] == keys[j];
    }
  }
}
