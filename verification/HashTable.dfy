// The hash table with linked buckets, as a finite map from strings to integers.
module HashTable {

  const TWO_TO_THE_64 := 0x1_0000_0000_0000_0000

  /** The int value of a (signed) char. */
  function SignedByte(c: char): int {
    if c as int < 128 then c as int else c as int - 256
  }

  /** The Bernstein hash of s continuing from h, in size_t arithmetic. */
  function HashFrom(h: nat, s: string): nat
    decreases |s|
  {
    if |s| == 0 then h else HashFrom((33 * h + SignedByte(s[0])) % TWO_TO_THE_64, s[1..])
  }

  lemma DropMultiple(q: int, x: int)
    ensures (TWO_TO_THE_64 * q + x) % TWO_TO_THE_64 == x % TWO_TO_THE_64
  {
  }

  /** Shifting left by five and adding once more is multiplying by 33. */
  lemma ShiftAndAdd(h: nat, c: int)
    ensures (h * 32 % TWO_TO_THE_64 + h + c) % TWO_TO_THE_64 == (33 * h + c) % TWO_TO_THE_64
  {
    var q := h * 32 / TWO_TO_THE_64;
    DropMultiple(q, h * 32 % TWO_TO_THE_64 + h + c);
  }

  method DjbHash(s: string) returns (hash: nat)
    ensures hash == HashFrom(5381, s)
  {
    hash := 5381;
    var i := 0;
    while i < |s|
      invariant i <= |s| && HashFrom(hash, s[i..]) == HashFrom(5381, s)
    {
      var c := SignedByte(s[i]);
      ShiftAndAdd(hash, c);
      assert s[i..][1..] == s[i + 1..];
      hash := (hash * 32 % TWO_TO_THE_64 + hash + c) % TWO_TO_THE_64;
      i := i + 1;
    }
  }

  function Index(key: string, size: nat): nat
    requires size > 0
  {
    HashFrom(5381, key) % size
  }

  /** One more character multiplies the hash by 33 and adds the character, from 5381. */
  lemma HashAppend(h: nat, s: string, c: char)
    ensures HashFrom(h, s + [c]) == (33 * HashFrom(h, s) + SignedByte(c)) % TWO_TO_THE_64
    decreases |s|
  {
    if |s| == 0 {
      assert s + [c] == [c] && [c][1..] == [];
    } else {
      assert (s + [c])[1..] == s[1..] + [c];
      HashAppend((33 * h + SignedByte(s[0])) % TWO_TO_THE_64, s[1..], c);
    }
  }

  /** Two hashes in full: "A" adds 65, and the byte 255 is a char of value -1. */
  lemma HashExamples()
    ensures Index("", 0x1_0000) == 5381 && Index("A", 0x10_0000) == 177638 && Index([255 as char], 0x10_0000) == 177572
  {
    assert "A"[1..] == "" && [255 as char][1..] == [];
    assert HashFrom(5381, "A") == 177638;
    assert HashFrom(5381, [255 as char]) == 177572;
  }

  class Item {
    const key: string
    const value: int
    var next: Item?

    constructor (key: string, value: int)
      ensures this.key == key && this.value == value
    {
      this.key, this.value := key, value;
    }
  }

  ghost function ItemAt(items: seq<Item>, k: int): Item? {
    if 0 <= k < |items| then items[k] else null
  }

  /** items is the list that starts at head. */
  ghost predicate Chain(head: Item?, items: seq<Item>)
    reads items
  {
    && head == ItemAt(items, 0)
    && (forall k {:trigger items[k].next} :: 0 <= k < |items| ==> items[k].next == ItemAt(items, k + 1))
  }

  ghost predicate Within(items: seq<Item>, repr: set<Item>) {
    forall k :: 0 <= k < |items| ==> items[k] in repr
  }

  ghost predicate Distinct(items: seq<Item>) {
    forall k, m :: 0 <= k < m < |items| ==> items[k].key != items[m].key
  }

  /** The chain holds exactly the bindings of m whose keys belong to bucket b of size. */
  ghost predicate Holds(items: seq<Item>, m: map<string, int>, b: nat, size: nat)
    requires size > 0
  {
    && Distinct(items)
    && (forall k :: 0 <= k < |items| ==>
        Index(items[k].key, size) == b && items[k].key in m && m[items[k].key] == items[k].value)
    && (forall key :: key in m && Index(key, size) == b ==> exists k :: 0 <= k < |items| && items[k].key == key)
  }

  class Table {
    const buckets: array<Item?>
    ghost var chains: seq<seq<Item>>
    ghost var repr: set<Item>
    ghost var contents: map<string, int>

    ghost predicate Valid()
      reads this, buckets, repr
    {
      && buckets.Length == |chains| > 0
      && (forall b :: 0 <= b < |chains| ==> Within(chains[b], repr))
      && (forall b :: 0 <= b < |chains| ==> Chain(buckets[b], chains[b]))
      && (forall b :: 0 <= b < |chains| ==> Holds(chains[b], contents, b, |chains|))
    }

    /** htab_init. */
    constructor (n: nat)
      requires n > 0
      ensures Valid() && contents == map[] && repr == {} && fresh(buckets) && buckets.Length == n
    {
      buckets := new Item?[n](_ => null);
      chains, repr, contents := seq(n, _ => []), {}, map[];
    }

    method Find(key: string) returns (item: Item?)
      requires Valid()
      ensures item == null <==> key !in contents
      ensures item != null ==> item.key == key && item.value == contents[key]
    {
      var hash := DjbHash(key);
      ghost var b := Index(key, |chains|);
      ghost var k := 0;
      item := buckets[hash % buckets.Length];
      while item != null
        invariant k <= |chains[b]| && item == ItemAt(chains[b], k)
        invariant forall m :: 0 <= m < k ==> chains[b][m].key != key
        decreases |chains[b]| - k
      {
        if item.key == key {
          return;
        }
        item := item.next;
        k := k + 1;
      }
    }

    /** Keys are at most three characters, so that the copy into key[4] is terminated. */
    method Add(key: string, value: int)
      requires Valid() && |key| <= 3
      requires key !in contents
      modifies this`chains, this`repr, this`contents, buckets
      ensures Valid() && contents == old(contents)[key := value]
      ensures fresh(repr - old(repr))
    {
      var hash := DjbHash(key);
      var bucket := hash % buckets.Length;
      var newHead := new Item(key, value);
      newHead.next := buckets[bucket];
      Prepend(newHead, bucket);
    }

    /** Makes item, which points to the head of its bucket's chain, the new head. */
    method Prepend(item: Item, bucket: nat)
      requires Valid() && bucket == Index(item.key, |chains|) && item.key !in contents && item.next == buckets[bucket]
      modifies this`chains, this`repr, this`contents, buckets
      ensures Valid() && contents == old(contents)[item.key := item.value] && repr == old(repr) + {item}
    {
      assert bucket < |chains|;
      hide Holds, HashFrom, Chain, Within, Index;
      ChainCons(item, chains[bucket]);
      AllWithinAdd(chains, repr, item, bucket);
      AllHoldAdd(chains, contents, item, bucket);
      buckets[bucket] := item;
      chains := chains[bucket := [item] + chains[bucket]];
      repr := repr + {item};
      contents := contents[item.key := item.value];
    }

    method Delete(key: string)
      requires Valid()
      modifies this`chains, this`contents, buckets, repr
      ensures Valid() && contents == old(contents) - {key} && repr == old(repr)
    {
      hide HashFrom;
      var hash := DjbHash(key);
      var bucket := hash % buckets.Length;
      ghost var items := chains[bucket];
      ghost var k := 0;
      var current := buckets[bucket];
      var previous: Item? := null;
      while current != null
        invariant k <= |items| && current == ItemAt(items, k) && previous == ItemAt(items, k - 1)
        invariant forall m :: 0 <= m < k ==> items[m].key != key
        decreases |items| - k
      {
        if current.key == key {
          break;
        }
        previous := current;
        current := current.next;
        k := k + 1;
      }
      if current == null {
        assert key !in contents;
        assert contents - {key} == contents;
        return;
      }
      AllHoldRemove(chains, contents, bucket, k);
      Unlink(previous, current, bucket, k);
      contents := contents - {key};
    }

    /** Takes current, index k of its bucket's chain, out of the chain. */
    method Unlink(previous: Item?, current: Item, bucket: nat, ghost k: nat)
      requires Valid() && bucket < |chains| && k < |chains[bucket]|
      requires current == chains[bucket][k] && previous == ItemAt(chains[bucket], k - 1)
      modifies this`chains, buckets, repr
      ensures chains == old(chains)[bucket := old(chains)[bucket][..k] + old(chains)[bucket][k + 1..]]
      ensures forall b :: 0 <= b < |chains| ==> Chain(buckets[b], chains[b])
    {
      hide HashFrom, Index, Distinct, Holds;
      ghost var items := chains[bucket];
      ghost var rest := items[..k] + items[k + 1..];
      if previous != null {
        OnePlace(chains, contents, bucket, k - 1);
      }
      if previous == null {
        ChainTail(items);
        assert rest == items[1..];
        hide Chain;
        buckets[bucket] := current.next;
      } else {
        assert forall b :: 0 <= b < |chains| && b != bucket ==> previous !in chains[b];
        hide Chain;
        Bypass(previous, current, buckets[bucket], items, k);
      }
      chains := chains[bucket := rest];
    }
  }

  /** previous->next = current->next. */
  method Bypass(previous: Item, current: Item, ghost head: Item?, ghost items: seq<Item>, ghost k: nat)
    requires Chain(head, items) && 0 < k < |items| && previous == items[k - 1] && current == items[k]
    requires forall m :: 0 <= m < |items| && items[m] == previous ==> m == k - 1
    modifies previous
    ensures Chain(head, items[..k] + items[k + 1..])
  {
    previous.next := current.next;
    ghost var rest := items[..k] + items[k + 1..];
    assert forall m :: 0 <= m < |rest| ==> rest[m] == if m < k then items[m] else items[m + 1];
  }

  lemma ChainTail(items: seq<Item>)
    requires |items| > 0 && Chain(items[0], items)
    ensures Chain(items[0].next, items[1..])
  {
    var r := items[1..];
    forall k | 0 <= k < |r| ensures r[k].next == ItemAt(r, k + 1) {
      assert r[k] == items[k + 1];
    }
  }

  lemma AllWithinAdd(chains: seq<seq<Item>>, repr: set<Item>, item: Item, bucket: nat)
    requires bucket < |chains| && forall b :: 0 <= b < |chains| ==> Within(chains[b], repr)
    ensures forall b :: 0 <= b < |chains| ==> Within(chains[b], repr + {item})
    ensures Within([item] + chains[bucket], repr + {item})
  {
  }

  lemma ChainCons(item: Item, items: seq<Item>)
    requires Chain(item.next, items)
    ensures Chain(item, [item] + items)
  {
    var r := [item] + items;
    forall k | 0 <= k < |r| ensures r[k].next == ItemAt(r, k + 1) {
      if k > 0 { assert r[k] == items[k - 1]; }
    }
  }

  lemma HoldsElsewhere(items: seq<Item>, m: map<string, int>, b: nat, size: nat, key: string, value: int)
    requires size > 0 && Holds(items, m, b, size) && Index(key, size) != b
    ensures Holds(items, m[key := value], b, size) && Holds(items, m - {key}, b, size)
  {
    hide HashFrom, Index;
  }

  lemma HoldsAdd(items: seq<Item>, m: map<string, int>, size: nat, item: Item)
    requires size > 0 && item.key !in m && Holds(items, m, Index(item.key, size), size)
    ensures Holds([item] + items, m[item.key := item.value], Index(item.key, size), size)
  {
    hide HashFrom, Index;
    var r, b, m' := [item] + items, Index(item.key, size), m[item.key := item.value];
    forall key | key in m' && Index(key, size) == b ensures exists k :: 0 <= k < |r| && r[k].key == key {
      if key == item.key {
        assert r[0].key == key;
      } else {
        var k :| 0 <= k < |items| && items[k].key == key;
        assert r[k + 1].key == key;
      }
    }
  }

  lemma HoldsRemove(items: seq<Item>, m: map<string, int>, b: nat, size: nat, k: nat)
    requires size > 0 && k < |items| && Holds(items, m, b, size)
    ensures Holds(items[..k] + items[k + 1..], m - {items[k].key}, b, size)
  {
    hide HashFrom, Index;
    var r, gone := items[..k] + items[k + 1..], items[k].key;
    assert forall j :: 0 <= j < |r| ==> r[j] == items[if j < k then j else j + 1];
    forall key | key in m - {gone} && Index(key, size) == b ensures exists j :: 0 <= j < |r| && r[j].key == key {
      var j :| 0 <= j < |items| && items[j].key == key;
      assert r[if j > k then j - 1 else j].key == key;
    }
  }

  lemma AllHoldAdd(chains: seq<seq<Item>>, m: map<string, int>, item: Item, bucket: nat)
    requires |chains| > 0 && bucket == Index(item.key, |chains|) && item.key !in m
    requires forall b :: 0 <= b < |chains| ==> Holds(chains[b], m, b, |chains|)
    ensures var chains' := chains[bucket := [item] + chains[bucket]];
            forall b :: 0 <= b < |chains| ==> Holds(chains'[b], m[item.key := item.value], b, |chains|)
  {
    hide Holds;
    HoldsAdd(chains[bucket], m, |chains|, item);
    forall b | 0 <= b < |chains| && b != bucket { HoldsElsewhere(chains[b], m, b, |chains|, item.key, item.value); }
  }

  lemma AllHoldRemove(chains: seq<seq<Item>>, m: map<string, int>, bucket: nat, k: nat)
    requires bucket < |chains| && k < |chains[bucket]|
    requires forall b :: 0 <= b < |chains| ==> Holds(chains[b], m, b, |chains|)
    ensures var items := chains[bucket];
            var chains' := chains[bucket := items[..k] + items[k + 1..]];
            forall b :: 0 <= b < |chains| ==> Holds(chains'[b], m - {items[k].key}, b, |chains|)
  {
    var gone := chains[bucket][k];
    assert Index(gone.key, |chains|) == bucket;
    hide Holds;
    HoldsRemove(chains[bucket], m, bucket, |chains|, k);
    forall b | 0 <= b < |chains| && b != bucket { HoldsElsewhere(chains[b], m, b, |chains|, gone.key, gone.value); }
  }

  /** Only one chain contains a given item, and only once. */
  lemma OnePlace(chains: seq<seq<Item>>, m: map<string, int>, b: nat, k: nat)
    requires b < |chains| && k < |chains[b]|
    requires forall c :: 0 <= c < |chains| ==> Holds(chains[c], m, c, |chains|)
    ensures forall c, j :: 0 <= c < |chains| && 0 <= j < |chains[c]| && chains[c][j] == chains[b][k] ==>
        c == b && j == k
  {
    hide HashFrom, Index;
  }
}
