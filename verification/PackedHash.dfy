// The plain hash of ngx_hash.c: elements packed into bucket segments.

module PackedHash {
  import opened MachineWords

  const PTR: nat := 8
  const WORD: nat := 65536
  const SIZE_T: nat := 0x1_0000_0000_0000_0000

  // A name to store, or an entry of the list without one.
  datatype Key = Skip | Key(name: string, hash: nat, value: nat)

  // An element in memory; a NULL value, 0, ends a bucket.
  datatype Elt = Elt(value: nat, name: string)

  // Bucket 0 is NULL.
  datatype Hash = Hash(size: nat, buckets: seq<nat>, mem: map<nat, Elt>)

  // Rounding up does not pass a multiple.
  lemma AlignWithin(x: nat, a: nat, limit: nat)
    requires 0 < a && x <= limit && MultipleOf(limit, a)
    ensures Align(x, a) <= limit
  {
    var q: nat :| Align(x, a) == q * a;
    var k: nat :| limit == k * a;
    if q > k {
      Scaled(k + 1, q, a);
    }
  }

  lemma Scaled(p: nat, q: nat, a: nat)
    requires p <= q
    ensures p * a <= q * a
  {
    assert q * a == p * a + (q - p) * a;
  }

  // NGX_HASH_ELT_SIZE
  function EltSize(len: nat): (r: nat)
    ensures 16 <= r && len + 10 <= r < len + 18
  {
    PTR + Align(len + 2, PTR)
  }

  function ToLower(c: char): char {
    if 'A' <= c <= 'Z' then (c as int + 32) as char else c
  }

  // ngx_strlow
  function Lower(s: string): (r: string)
    ensures |r| == |s|
  {
    seq(|s|, i requires 0 <= i < |s| => ToLower(s[i]))
  }

  predicate Capital(c: char) {
    c in "ABCDEFGHIJKLMNOPQRSTUVWXYZ"
  }

  // The string t is s with the small letters of its capitals.
  ghost predicate Lowers(s: string, t: string) {
    && |t| == |s| && (forall i :: 0 <= i < |t| ==> !Capital(t[i]))
    && forall i :: 0 <= i < |t| ==> if Capital(s[i]) then t[i] as int == s[i] as int + 32 else t[i] == s[i]
  }

  lemma LowersIs(s: string, t: string)
    ensures Lowers(s, t) <==> t == Lower(s)
  {
    hide Capital;
    forall c: char
      ensures if Capital(c) then ToLower(c) as int == c as int + 32 else ToLower(c) == c
      ensures !Capital(ToLower(c))
    {
      CapitalIs(c);
      CapitalIs(ToLower(c));
    }
    var u := Lower(s);
    assert forall i :: 0 <= i < |s| ==> u[i] == ToLower(s[i]);
    if Lowers(s, t) {
      assert forall i :: 0 <= i < |s| ==> t[i] == u[i];
    }
  }

  lemma CapitalIs(c: char)
    ensures Capital(c) <==> 'A' <= c <= 'Z'
  {
  }

  // ngx_hash, in machine words
  function NextKey(key: nat, c: char): nat {
    (key * 31 + c as int) % SIZE_T
  }

  // ngx_hash_key
  function HashKey(s: string): nat {
    if s == [] then 0 else NextKey(HashKey(s[..|s| - 1]), s[|s| - 1])
  }

  function Power31(k: nat): nat {
    if k == 0 then 1 else 31 * Power31(k - 1)
  }

  // The characters as digits to the base of 31, the first one the highest
  function Digits31(s: string): nat {
    if s == [] then 0 else s[0] as int * Power31(|s| - 1) + Digits31(s[1..])
  }

  lemma {:induction false} Digits31More(s: string, c: char)
    ensures Digits31(s + [c]) == 31 * Digits31(s) + c as int
  {
    if s == [] {
      assert [c][1..] == [] && s + [c] == [c] && Power31(0) == 1;
    } else {
      var a, p := s[0] as int, Power31(|s| - 1);
      Digits31More(s[1..], c);
      assert (s + [c])[1..] == s[1..] + [c];
      Regroup(a, p, Digits31(s[1..]));
    }
  }

  lemma Regroup(a: nat, p: nat, rest: nat)
    ensures a * (31 * p) + 31 * rest == 31 * (a * p + rest)
  {
  }

  lemma {:induction false} HashKeyIs(s: string)
    ensures HashKey(s) == Digits31(s) % SIZE_T
  {
    if s != [] {
      var t, c := s[..|s| - 1], s[|s| - 1];
      assert s == t + [c];
      HashKeyIs(t);
      Digits31More(t, c);
      Reduced(Digits31(t), c as int);
    }
  }

  lemma Reduced(d: nat, c: nat)
    ensures (d % SIZE_T * 31 + c) % SIZE_T == (31 * d + c) % SIZE_T
  {
    var q, r := d / SIZE_T, d % SIZE_T;
    assert 31 * d + c == r * 31 + c + 31 * q * SIZE_T;
    Wrapped(r * 31 + c, 31 * q);
  }

  lemma {:induction false} Wrapped(x: nat, k: nat)
    ensures (x + k * SIZE_T) % SIZE_T == x % SIZE_T
  {
    if k > 0 {
      Wrapped(x, k - 1);
      assert x + k * SIZE_T == x + (k - 1) * SIZE_T + SIZE_T;
    }
  }

  // -------- what goes into a bucket --------

  // The names of bucket b, in order.
  function Items(names: seq<Key>, size: nat, b: nat): (items: seq<Key>)
    requires 0 < size
    ensures forall x :: x in items ==> x.Key? && x in names && x.hash % size == b
  {
    if names == [] then []
    else
      var last := names[|names| - 1];
      Items(names[..|names| - 1], size, b) + (if last.Key? && last.hash % size == b then [last] else [])
  }

  function SizeOf(items: seq<Key>): nat {
    if items == [] then 0
    else SizeOf(items[..|items| - 1]) + (if items[|items| - 1].Key? then EltSize(|items[|items| - 1].name|) else 0)
  }

  function BucketSize(names: seq<Key>, size: nat, b: nat): nat
    requires 0 < size
  {
    SizeOf(Items(names, size, b))
  }

  lemma BucketStep(names: seq<Key>, size: nat, b: nat, n: nat)
    requires 0 < size && n < |names|
    ensures
      var k := names[n];
      BucketSize(names[..n + 1], size, b)
      == BucketSize(names[..n], size, b) + (if k.Key? && k.hash % size == b then EltSize(|k.name|) else 0)
    ensures
      var k := names[n];
      Items(names[..n + 1], size, b) == Items(names[..n], size, b) + (if k.Key? && k.hash % size == b then [k] else [])
  {
    var k, items := names[n], Items(names[..n], size, b);
    assert names[..n + 1][..n] == names[..n];
    if k.Key? && k.hash % size == b {
      assert (items + [k])[..|items|] == items;
    } else {
      assert items + [] == items;
    }
  }

  lemma {:induction false} BucketGrows(names: seq<Key>, size: nat, b: nat, n: nat, m: nat)
    requires 0 < size && n <= m <= |names|
    ensures BucketSize(names[..n], size, b) <= BucketSize(names[..m], size, b)
  {
    hide BucketSize, Items, SizeOf;
    if n < m {
      BucketGrows(names, size, b, n, m - 1);
      BucketStep(names, size, b, m - 1);
    }
  }

  lemma {:induction false} EmptyBucket(items: seq<Key>)
    requires forall x :: x in items ==> x.Key?
    ensures SizeOf(items) == 0 <==> items == []
    ensures items != [] ==> SizeOf(items) >= 16
  {
    if items != [] {
      assert items[|items| - 1] in items;
    }
  }

  lemma BucketSteps(names: seq<Key>, size: nat, n: nat)
    requires 0 < size && n < |names|
    ensures forall b :: 0 <= b < size ==>
              BucketSize(names[..n + 1], size, b)
              == BucketSize(names[..n], size, b)
                 + (if names[n].Key? && names[n].hash % size == b then EltSize(|names[n].name|) else 0)
  {
    hide BucketSize, Items, SizeOf, EltSize;
    forall b | 0 <= b < size
      ensures BucketSize(names[..n + 1], size, b)
           == BucketSize(names[..n], size, b)
              + (if names[n].Key? && names[n].hash % size == b then EltSize(|names[n].name|) else 0)
    {
      BucketStep(names, size, b, n);
    }
  }

  lemma EmptySizes(names: seq<Key>, size: nat)
    requires 0 < size
    ensures forall b :: 0 <= b < size ==> BucketSize(names[..0], size, b) == 0
  {
  }

  // -------- the size --------

  ghost predicate NoKeys(names: seq<Key>) {
    forall n :: 0 <= n < |names| ==> names[n].Skip?
  }

  // No bucket is longer than the limit.
  ghost predicate Fits(names: seq<Key>, size: nat, limit: nat) {
    0 < size && forall b {:trigger BucketSize(names, size, b)} :: 0 <= b < size ==> BucketSize(names, size, b) <= limit
  }

  // One attempt of the loop over sizes.
  method TrySize(names: seq<Key>, size: nat, limit: nat, test: array<nat>) returns (ok: bool)
    requires 0 < size <= test.Length && (limit < WORD || NoKeys(names))
    modifies test
    ensures ok <==> Fits(names, size, limit)
  {
    hide BucketSize, Items, SizeOf, EltSize, Align;
    var i := 0;
    while i < size
      invariant i <= size && forall b :: 0 <= b < i ==> test[b] == 0
    {
      test[i] := 0;
      i := i + 1;
    }
    var n := 0;
    assert forall b :: 0 <= b < size ==> BucketSize(names[..0], size, b) == 0 by {
      EmptySizes(names, size);
    }
    while n < |names|
      invariant n <= |names|
      invariant forall b {:trigger test[b]} ::
                  0 <= b < size ==> test[b] == BucketSize(names[..n], size, b) && test[b] <= limit
    {
      BucketSteps(names, size, n);
      if names[n].Key? {
        var key := names[n].hash % size;
        var len := test[key] + EltSize(|names[n].name|);
        if len > limit {
          BucketGrows(names, size, key, n + 1, |names|);
          assert names[..|names|] == names;
          assert BucketSize(names, size, key) > limit;
          return false;
        }
        assert len < WORD;
        test[key] := len;
      }
      n := n + 1;
    }
    assert names[..|names|] == names;
    ok := true;
    forall b | 0 <= b < size
      ensures BucketSize(names, size, b) <= limit
    {
      assert test[b] <= limit;
    }
  }

  // The smallest size from `start` on that keeps every bucket within the limit, or the
  // largest size allowed, whatever the buckets become.
  ghost predicate Chosen(names: seq<Key>, start: nat, maxSize: nat, limit: nat, size: nat, found: bool) {
    && (found ==> start <= size <= maxSize && Fits(names, size, limit))
    && (found ==> forall s :: start <= s < size ==> !Fits(names, s, limit))
    && (!found ==> size == maxSize && forall s :: start <= s <= maxSize ==> !Fits(names, s, limit))
  }

  method ChooseSize(names: seq<Key>, start: nat, maxSize: nat, limit: nat) returns (size: nat, found: bool)
    requires 0 < start && 0 < maxSize && (limit < WORD || NoKeys(names))
    ensures Chosen(names, start, maxSize, limit, size, found)
  {
    var test := new nat[maxSize];
    size := start;
    while size <= maxSize
      invariant start <= size && forall s :: start <= s < size ==> !Fits(names, s, limit)
    {
      var ok := TrySize(names, size, limit, test);
      if ok {
        return size, true;
      }
      size := size + 1;
    }
    return maxSize, false;
  }

  // -------- bucket segments --------

  // The bytes of the segment of bucket b: nothing for an empty one, else its elements and
  // a terminator, in whole cache lines.
  function Segment(names: seq<Key>, size: nat, b: nat, line: nat): nat
    requires 0 < size && 0 < line
  {
    if Items(names, size, b) == [] then 0 else Align(PTR + BucketSize(names, size, b), line)
  }

  function Offset(names: seq<Key>, size: nat, b: nat, line: nat): nat
    requires 0 < size && 0 < line
  {
    if b == 0 then 0 else Offset(names, size, b - 1, line) + Segment(names, size, b - 1, line)
  }

  lemma {:induction false} SegmentsApart(names: seq<Key>, size: nat, b: nat, c: nat, line: nat)
    requires 0 < size && 0 < line && b < c
    ensures Offset(names, size, b, line) + Segment(names, size, b, line) <= Offset(names, size, c, line)
    decreases c
  {
    hide Segment;
    if b < c - 1 {
      SegmentsApart(names, size, b, c - 1, line);
    }
  }

  // -------- chains of elements --------

  // The items stand one after the other from address a on.
  ghost predicate Chain(mem: map<nat, Elt>, a: nat, items: seq<Key>)
    decreases |items|
  {
    items == [] ||
    (var n := |items| - 1;
     items[n].Key? && Chain(mem, a, items[..n])
     && a + SizeOf(items[..n]) in mem && mem[a + SizeOf(items[..n])] == Elt(items[n].value, Lower(items[n].name)))
  }

  lemma {:induction false} ChainFrame(mem: map<nat, Elt>, mem': map<nat, Elt>, a: nat, items: seq<Key>)
    requires Chain(mem, a, items)
    requires forall x :: a <= x < a + SizeOf(items) && x in mem ==> x in mem' && mem'[x] == mem[x]
    ensures Chain(mem', a, items)
    decreases |items|
  {
    if items != [] {
      ChainFrame(mem, mem', a, items[..|items| - 1]);
    }
  }

  lemma {:induction false} ChainAt(mem: map<nat, Elt>, a: nat, items: seq<Key>, i: nat)
    requires Chain(mem, a, items) && i < |items|
    ensures items[i].Key? && a + SizeOf(items[..i]) in mem
    ensures mem[a + SizeOf(items[..i])] == Elt(items[i].value, Lower(items[i].name))
    ensures SizeOf(items[..i + 1]) == SizeOf(items[..i]) + EltSize(|items[i].name|)
    decreases |items|
  {
    var n := |items| - 1;
    if i < n {
      ChainAt(mem, a, items[..n], i);
      assert items[..n][..i] == items[..i] && items[..n][..i + 1] == items[..i + 1];
    } else {
      assert items[..i + 1] == items;
    }
  }

  // The hash holds the names: every bucket has its own segment, with the elements of the
  // bucket and a terminator.
  ghost predicate Holds(h: Hash, names: seq<Key>, elts: nat, line: nat) {
    && 0 < h.size && 0 < line && 0 < elts && |h.buckets| == h.size
    && forall b {:trigger h.buckets[b]} :: 0 <= b < h.size ==> BucketHolds(h, names, elts, line, b)
  }

  ghost predicate BucketHolds(h: Hash, names: seq<Key>, elts: nat, line: nat, b: nat)
    requires 0 < h.size && 0 < line && b < |h.buckets|
  {
    var items, a := Items(names, h.size, b), elts + Offset(names, h.size, b, line);
    if items == [] then h.buckets[b] == 0
    else
      && h.buckets[b] == a && Chain(h.mem, a, items)
      && a + SizeOf(items) in h.mem && h.mem[a + SizeOf(items)].value == 0
  }

  // -------- filling --------

  function Base(names: seq<Key>, size: nat, b: nat, line: nat, elts: nat): nat
    requires 0 < size && 0 < line
  {
    elts + Offset(names, size, b, line)
  }

  // An element goes between the two ends of a segment.
  function Put(mem: map<nat, Elt>, a: nat, value: nat, name: string, lo: nat, hi: nat): map<nat, Elt>
    requires lo <= a && a + EltSize(|name|) <= hi
  {
    mem[a := Elt(value, name)]
  }

  // So does a terminator, which is one pointer.
  function PutEnd(mem: map<nat, Elt>, a: nat, lo: nat, hi: nat): map<nat, Elt>
    requires lo <= a && a + PTR <= hi
  {
    mem[a := Elt(0, "")]
  }

  // The first n names are in place, and `test` counts the bytes they take in a bucket.
  ghost predicate Filled(names: seq<Key>, size: nat, line: nat, elts: nat, mem: map<nat, Elt>, test: seq<nat>, n: nat)
    requires 0 < size && 0 < line && n <= |names|
  {
    && |test| >= size
    && forall b {:trigger test[b]} :: 0 <= b < size ==>
         test[b] == BucketSize(names[..n], size, b)
         && Chain(mem, Base(names, size, b, line, elts), Items(names[..n], size, b))
  }

  lemma {:induction false} ItemsLonger(names: seq<Key>, size: nat, b: nat, n: nat)
    requires 0 < size && n <= |names|
    ensures BucketSize(names[..n], size, b) <= BucketSize(names, size, b)
    ensures Items(names[..n], size, b) != [] ==> Items(names, size, b) != []
  {
    BucketGrows(names, size, b, n, |names|);
    assert names[..|names|] == names;
    EmptyBucket(Items(names, size, b));
    EmptyBucket(Items(names[..n], size, b));
  }

  lemma SegmentRoom(names: seq<Key>, size: nat, b: nat, line: nat)
    requires 0 < size && 0 < line && Items(names, size, b) != []
    ensures PTR + BucketSize(names, size, b) <= Segment(names, size, b, line)
  {
  }

  // A write in the segment of bucket c does not touch the elements of bucket b.
  lemma OtherChain(names: seq<Key>, size: nat, line: nat, elts: nat, mem: map<nat, Elt>, n: nat, b: nat, c: nat,
                   x: nat, e: Elt)
    requires 0 < size && 0 < line && n <= |names| && b != c
    requires Chain(mem, Base(names, size, b, line, elts), Items(names[..n], size, b))
    requires Base(names, size, c, line, elts) <= x < Base(names, size, c, line, elts) + Segment(names, size, c, line)
    ensures Chain(mem[x := e], Base(names, size, b, line, elts), Items(names[..n], size, b))
  {
    hide Chain, Items, Segment, Offset, SizeOf;
    var items := Items(names[..n], size, b);
    ItemsLonger(names, size, b, n);
    EmptyBucket(items);
    if b < c {
      SegmentsApart(names, size, b, c, line);
    } else {
      SegmentsApart(names, size, c, b, line);
    }
    if items != [] {
      SegmentRoom(names, size, b, line);
    }
    ChainFrame(mem, mem[x := e], Base(names, size, b, line, elts), items);
  }

  lemma ChainSnoc(mem: map<nat, Elt>, a: nat, items: seq<Key>, k: Key, mem': map<nat, Elt>)
    requires Chain(mem, a, items) && k.Key? && mem' == mem[a + SizeOf(items) := Elt(k.value, Lower(k.name))]
    ensures Chain(mem', a, items + [k])
  {
    hide Lower;
    ChainFrame(mem, mem', a, items);
    assert (items + [k])[..|items|] == items;
  }

  lemma FillStep(names: seq<Key>, size: nat, line: nat, elts: nat, mem: map<nat, Elt>, test: seq<nat>, n: nat)
    requires 0 < size && 0 < line && n < |names| && Filled(names, size, line, elts, mem, test, n) && names[n].Key?
    ensures
      var k, c := names[n], names[n].hash % size;
      var a := Base(names, size, c, line, elts);
      && c < |test| && Items(names, size, c) != []
      && a + test[c] + EltSize(|k.name|) + PTR <= a + Segment(names, size, c, line)
      && Filled(names, size, line, elts, mem[a + test[c] := Elt(k.value, Lower(k.name))],
                test[c := test[c] + EltSize(|k.name|)], n + 1)
  {
    hide Chain, Items, Segment, Offset, SizeOf, Lower;
    var k, c := names[n], names[n].hash % size;
    var a := Base(names, size, c, line, elts);
    BucketStep(names, size, c, n);
    ItemsLonger(names, size, c, n + 1);
    SegmentRoom(names, size, c, line);
    var mem' := mem[a + test[c] := Elt(k.value, Lower(k.name))];
    var test' := test[c := test[c] + EltSize(|k.name|)];
    forall b | 0 <= b < size
      ensures test'[b] == BucketSize(names[..n + 1], size, b)
      ensures Chain(mem', Base(names, size, b, line, elts), Items(names[..n + 1], size, b))
    {
      assert test[b] == BucketSize(names[..n], size, b);
      BucketStep(names, size, b, n);
      if b == c {
        ChainSnoc(mem, a, Items(names[..n], size, c), k, mem');
      } else {
        OtherChain(names, size, line, elts, mem, n, b, c, a + test[c], Elt(k.value, Lower(k.name)));
        assert Items(names[..n], size, b) + [] == Items(names[..n], size, b);
      }
    }
  }

  lemma FillSkip(names: seq<Key>, size: nat, line: nat, elts: nat, mem: map<nat, Elt>, test: seq<nat>, n: nat)
    requires 0 < size && 0 < line && n < |names| && Filled(names, size, line, elts, mem, test, n) && names[n].Skip?
    ensures Filled(names, size, line, elts, mem, test, n + 1)
  {
    hide Chain, Items, Segment, Offset, SizeOf, Lower;
    forall b | 0 <= b < size
      ensures test[b] == BucketSize(names[..n + 1], size, b)
      ensures Chain(mem, Base(names, size, b, line, elts), Items(names[..n + 1], size, b))
    {
      BucketStep(names, size, b, n);
      assert Items(names[..n], size, b) + [] == Items(names[..n], size, b);
    }
  }

  // The buckets before i are ended.
  ghost predicate Ended(names: seq<Key>, size: nat, line: nat, elts: nat, mem: map<nat, Elt>, i: nat)
    requires 0 < size && 0 < line
  {
    forall b {:trigger Base(names, size, b, line, elts)} :: 0 <= b < i && Items(names, size, b) != [] ==>
      var x := Base(names, size, b, line, elts) + BucketSize(names, size, b);
      x in mem && mem[x].value == 0
  }

  lemma EndStep(names: seq<Key>, size: nat, line: nat, elts: nat, mem: map<nat, Elt>, test: seq<nat>, i: nat)
    requires 0 < size && 0 < line && i < size && Filled(names, size, line, elts, mem, test, |names|)
    requires Ended(names, size, line, elts, mem, i)
    ensures
      var a := Base(names, size, i, line, elts);
      if Items(names, size, i) == [] then test[i] == 0 && Ended(names, size, line, elts, mem, i + 1)
      else
        && test[i] >= 16 && a + test[i] + PTR <= a + Segment(names, size, i, line)
        && Filled(names, size, line, elts, mem[a + test[i] := Elt(0, "")], test, |names|)
        && Ended(names, size, line, elts, mem[a + test[i] := Elt(0, "")], i + 1)
  {
    hide Chain, Items, Segment, Offset, SizeOf, Lower;
    var a := Base(names, size, i, line, elts);
    assert names[..|names|] == names;
    assert test[i] == BucketSize(names, size, i);
    EmptyBucket(Items(names, size, i));
    if Items(names, size, i) != [] {
      SegmentRoom(names, size, i, line);
      var mem' := mem[a + test[i] := Elt(0, "")];
      forall b | 0 <= b < size
        ensures Chain(mem', Base(names, size, b, line, elts), Items(names[..|names|], size, b))
        ensures test[b] == BucketSize(names[..|names|], size, b)
      {
        assert test[b] == BucketSize(names, size, b);
        if b == i {
          ChainFrame(mem, mem', a, Items(names, size, i));
        } else {
          OtherChain(names, size, line, elts, mem, |names|, b, i, a + test[i], Elt(0, ""));
        }
      }
      EndApart(names, size, line, elts, mem, i);
    }
  }

  lemma EndApart(names: seq<Key>, size: nat, line: nat, elts: nat, mem: map<nat, Elt>, i: nat)
    requires 0 < size && 0 < line && i < size && Ended(names, size, line, elts, mem, i) && Items(names, size, i) != []
    ensures
      var x := Base(names, size, i, line, elts) + BucketSize(names, size, i);
      Ended(names, size, line, elts, mem[x := Elt(0, "")], i + 1)
  {
    hide Items, Segment, Offset, SizeOf;
    forall b | 0 <= b < i && Items(names, size, b) != []
      ensures Base(names, size, b, line, elts) + BucketSize(names, size, b)
              < Base(names, size, i, line, elts) + BucketSize(names, size, i)
    {
      SegmentsApart(names, size, b, i, line);
      SegmentRoom(names, size, b, line);
    }
  }

  lemma Finished(names: seq<Key>, size: nat, line: nat, elts: nat, mem: map<nat, Elt>, test: seq<nat>,
                 buckets: seq<nat>)
    requires 0 < size && 0 < line && 0 < elts && Filled(names, size, line, elts, mem, test, |names|)
    requires Ended(names, size, line, elts, mem, size) && |buckets| == size
    requires forall b {:trigger buckets[b]} :: 0 <= b < size ==>
               buckets[b] == if Items(names, size, b) == [] then 0 else Base(names, size, b, line, elts)
    ensures Holds(Hash(size, buckets, mem), names, elts, line)
  {
    hide Chain, Items, Segment, Offset, SizeOf;
    assert names[..|names|] == names;
    forall b | 0 <= b < size
      ensures BucketHolds(Hash(size, buckets, mem), names, elts, line, b)
    {
      assert test[b] == BucketSize(names, size, b);
      assert buckets[b] == buckets[b];
    }
  }

  // -------- ngx_hash_init --------

  // What makes the construction fail: no size, buckets too large or too small for a name,
  // or, at the size chosen, a bucket that cannot be counted in 16 bits.
  ghost predicate TooSmall(names: seq<Key>, bucketSize: nat) {
    exists n :: 0 <= n < |names| && names[n].Key? && bucketSize < EltSize(|names[n].name|) + PTR
  }

  ghost predicate TooLong(names: seq<Key>, size: nat, line: nat)
    requires line <= WORD
  {
    0 < size && exists b ::
      0 <= b < size && Items(names, size, b) != [] && PTR + BucketSize(names, size, b) > WORD - line
  }

  // bucket_size - sizeof(void *), an unsigned word
  function Limit(bucketSize: nat): nat {
    (bucketSize + SIZE_T - PTR) % SIZE_T
  }

  // Where the search for a size starts: two words for an element, about.
  function StartSize(names: nat, maxSize: nat, limit: nat): nat
    requires 2 * PTR <= limit
  {
    if maxSize > 10000 && names > 0 && maxSize / names < 100 then maxSize - 1000
    else
      var start := names / (limit / (2 * PTR));
      if start != 0 then start else 1
  }

  // What the code checks before it looks for a size
  ghost predicate Refused(names: seq<Key>, maxSize: nat, bucketSize: nat, line: nat)
    requires line <= WORD
  {
    maxSize == 0 || bucketSize > WORD - line || TooSmall(names, bucketSize)
  }

  // The division that finds the start has a zero divisor. With a key the bucket size has
  // been refused by then.
  ghost predicate ZeroDivisor(names: seq<Key>, bucketSize: nat) {
    8 <= bucketSize < 24 && NoKeys(names)
  }

  datatype Built = Failed | DividesByZero | Built(hash: Hash)

  method Init(names: seq<Key>, maxSize: nat, bucketSize: nat, line: nat, elts: nat)
      returns (r: Built, size: nat, found: bool)
    requires PTR <= line <= WORD && MultipleOf(WORD - line, line) && 0 < elts
    ensures r.DividesByZero? <==> !Refused(names, maxSize, bucketSize, line) && ZeroDivisor(names, bucketSize)
    ensures !Refused(names, maxSize, bucketSize, line) && !ZeroDivisor(names, bucketSize) ==>
              && 2 * PTR <= Limit(bucketSize)
              && Chosen(names, StartSize(|names|, maxSize, Limit(bucketSize)), maxSize, Limit(bucketSize), size, found)
    ensures r.Failed? <==>
              || Refused(names, maxSize, bucketSize, line)
              || (!ZeroDivisor(names, bucketSize) && TooLong(names, size, line))
    ensures r.Built? ==> Holds(r.hash, names, elts, line) && r.hash.size == size && 0 < size <= maxSize
  {
    hide Items, SizeOf, Chain, Holds, Fits, Offset, Segment, Filled, Ended, MultipleOf, TooLong, Align, BucketSize,
         Refused, TooSmall, Chosen, StartSize, Limit;
    size, found := 0, false;
    var ok := Accepts(names, maxSize, bucketSize, line);
    if !ok {
      return Failed, size, found;
    }
    RefusedFirst(names, maxSize, bucketSize, line);
    LimitCases(names, bucketSize);
    var limit := Limit(bucketSize);
    if limit / (2 * PTR) == 0 {
      return DividesByZero, size, found;
    }
    StartCases(|names|, maxSize, limit);
    var start := |names| / (limit / (2 * PTR));
    start := if start != 0 then start else 1;
    if maxSize > 10000 && |names| > 0 && maxSize / |names| < 100 {
      start := maxSize - 1000;
    }
    size, found := ChooseSize(names, start, maxSize, limit);
    ChosenSize(names, start, maxSize, limit, size, found);
    var test := new nat[size];
    ok := Measure(names, size, line, test);
    if !ok {
      return Failed, size, found;
    }
    var buckets := Place(names, size, line, elts, test);
    var mem := Fill(names, size, line, elts, test, buckets);
    r := Built(Hash(size, buckets, mem));
  }

  method Accepts(names: seq<Key>, maxSize: nat, bucketSize: nat, line: nat) returns (ok: bool)
    requires line <= WORD
    ensures ok <==> !Refused(names, maxSize, bucketSize, line)
  {
    hide EltSize;
    if maxSize == 0 || bucketSize > WORD - line {
      return false;
    }
    var n := 0;
    while n < |names|
      invariant n <= |names| && forall i :: 0 <= i < n && names[i].Key? ==> bucketSize >= EltSize(|names[i].name|) + PTR
    {
      if names[n].Key? && bucketSize < EltSize(|names[n].name|) + PTR {
        return false;
      }
      n := n + 1;
    }
    ok := true;
  }

  lemma RefusedFirst(names: seq<Key>, maxSize: nat, bucketSize: nat, line: nat)
    requires line <= WORD && !Refused(names, maxSize, bucketSize, line)
    ensures 0 < maxSize && bucketSize <= WORD - line && !TooSmall(names, bucketSize)
  {
  }

  lemma StartCases(names: nat, maxSize: nat, limit: nat)
    requires 2 * PTR <= limit
    ensures 0 < limit / (2 * PTR) && 0 < StartSize(names, maxSize, limit)
    ensures maxSize > 10000 && names > 0 && maxSize / names < 100 ==>
              StartSize(names, maxSize, limit) == maxSize - 1000
    ensures !(maxSize > 10000 && names > 0 && maxSize / names < 100) ==>
              StartSize(names, maxSize, limit)
              == if names / (limit / (2 * PTR)) != 0 then names / (limit / (2 * PTR)) else 1
  {
  }

  lemma ChosenSize(names: seq<Key>, start: nat, maxSize: nat, limit: nat, size: nat, found: bool)
    requires Chosen(names, start, maxSize, limit, size, found) && 0 < start && 0 < maxSize
    ensures 0 < size <= maxSize
  {
  }

  // Sizes under 8 wrap round, those from 8 to 23 leave less than two words; both pass the
  // checks without keys only.
  lemma LimitCases(names: seq<Key>, bucketSize: nat)
    requires bucketSize <= WORD && !TooSmall(names, bucketSize)
    ensures Limit(bucketSize) == if bucketSize < 8 then SIZE_T - 8 + bucketSize else bucketSize - 8
    ensures bucketSize < 24 ==> NoKeys(names)
    ensures Limit(bucketSize) / (2 * PTR) == 0 <==> 8 <= bucketSize < 24
  {
    forall n | 0 <= n < |names| && names[n].Key?
      ensures 24 <= EltSize(|names[n].name|) + PTR
    {
    }
  }

  // No keys, and room for one element less its terminator
  method NoRoom() returns (r: Built)
    ensures r == DividesByZero
  {
    LineDivides();
    var size, found;
    r, size, found := Init([], 1, 16, 64, 64);
  }

  // A bucket size that cannot hold a pointer is no obstacle without keys.
  method TinyBuckets(maxSize: nat, bucketSize: nat) returns (r: Built)
    requires 0 < maxSize && bucketSize < 8
    ensures r.Built? && r.hash.size == 1 && r.hash.buckets == [0]
  {
    LineDivides();
    LimitCases([], bucketSize);
    assert Fits([], 1, Limit(bucketSize)) && !TooLong([], 1, 64);
    var size, found;
    r, size, found := Init([], maxSize, bucketSize, 64, 64);
    assert BucketHolds(r.hash, [], 64, 64, 0);
  }

  lemma LineDivides()
    ensures MultipleOf(WORD - 64, 64)
  {
    assert WORD - 64 == 1023 * 64;
  }

  // The size of a segment fits in 16 bits; one pointer stands for an empty bucket.
  ghost predicate Measured(names: seq<Key>, size: nat, line: nat, bytes: nat, b: nat)
    requires 0 < size && 0 < line
  {
    bytes < WORD && bytes == if Items(names, size, b) == [] then PTR else Segment(names, size, b, line)
  }

  // The bytes every bucket needs, terminator included, and then in whole cache lines.
  method Measure(names: seq<Key>, size: nat, line: nat, test: array<nat>) returns (ok: bool)
    requires 0 < size == test.Length && PTR <= line <= WORD && MultipleOf(WORD - line, line)
    modifies test
    ensures ok <==> !TooLong(names, size, line)
    ensures ok ==> forall b {:trigger test[b]} :: 0 <= b < size ==> Measured(names, size, line, test[b], b)
    ensures ok ==> forall b :: 0 <= b < size && Items(names, size, b) != [] ==> test[b] != PTR
  {
    hide Items, SizeOf, Segment;
    var i := 0;
    while i < size
      invariant i <= size && forall b :: 0 <= b < i ==> test[b] == PTR
    {
      test[i] := PTR;
      i := i + 1;
    }
    var n := 0;
    NoneYet(names, size);
    while n < |names|
      invariant n <= |names|
      invariant forall b {:trigger test[b]} :: 0 <= b < size ==>
                  test[b] == PTR + BucketSize(names[..n], size, b) && (test[b] == PTR || test[b] <= WORD - line)
    {
      forall b | 0 <= b < size
        ensures BucketSize(names[..n + 1], size, b)
             == BucketSize(names[..n], size, b)
                + (if names[n].Key? && names[n].hash % size == b then EltSize(|names[n].name|) else 0)
      {
        BucketStep(names, size, b, n);
      }
      if names[n].Key? {
        var key := names[n].hash % size;
        var len := test[key] + EltSize(|names[n].name|);
        if len > WORD - line {
          ItemsLonger(names, size, key, n + 1);
          EmptyBucket(Items(names, size, key));
          return false;
        }
        test[key] := len;
      }
      n := n + 1;
    }
    assert names[..|names|] == names;
    forall b | 0 <= b < size
      ensures (Items(names, size, b) == [] <==> test[b] == PTR) && test[b] == PTR + BucketSize(names, size, b)
    {
      EmptyBucket(Items(names, size, b));
    }
    ok := true;
    i := 0;
    while i < size
      invariant i <= size
      invariant forall b {:trigger test[b]} :: 0 <= b < i ==> Measured(names, size, line, test[b], b)
      invariant forall b :: 0 <= b < i && Items(names, size, b) != [] ==> test[b] != PTR
      invariant forall b {:trigger test[b]} :: i <= b < size ==>
                  test[b] == PTR + BucketSize(names, size, b) && (test[b] == PTR || test[b] <= WORD - line)
                  && (Items(names, size, b) == [] <==> test[b] == PTR)
    {
      if test[i] != PTR {
        SegmentIs(names, size, i, line);
        AlignWithin(test[i], line, WORD - line);
        test[i] := Align(test[i], line);
      }
      i := i + 1;
    }
  }

  lemma NoneYet(names: seq<Key>, size: nat)
    requires 0 < size
    ensures forall b :: 0 <= b < size ==> BucketSize(names[..0], size, b) == 0
  {
  }

  lemma SegmentIs(names: seq<Key>, size: nat, b: nat, line: nat)
    requires 0 < size && 0 < line && Items(names, size, b) != []
    ensures Segment(names, size, b, line) == Align(PTR + BucketSize(names, size, b), line)
  {
  }

  // Every bucket that is not empty gets its segment, one after the other.
  method Place(names: seq<Key>, size: nat, line: nat, elts: nat, test: array<nat>) returns (buckets: seq<nat>)
    requires 0 < size == test.Length && 0 < line && 0 < elts
    requires forall b {:trigger test[b]} :: 0 <= b < size ==> Measured(names, size, line, test[b], b)
    requires forall b :: 0 <= b < size && Items(names, size, b) != [] ==> test[b] != PTR
    ensures |buckets| == size
    ensures forall b {:trigger buckets[b]} :: 0 <= b < size ==>
              buckets[b] == if Items(names, size, b) == [] then 0 else Base(names, size, b, line, elts)
  {
    hide Items, Segment, SizeOf;
    buckets := [];
    var at := elts;
    while |buckets| < size
      invariant |buckets| <= size && at == Base(names, size, |buckets|, line, elts)
      invariant forall b {:trigger buckets[b]} :: 0 <= b < |buckets| ==>
                  buckets[b] == if Items(names, size, b) == [] then 0 else Base(names, size, b, line, elts)
    {
      var i := |buckets|;
      EmptySegment(names, size, i, line);
      if test[i] == PTR {
        buckets := buckets + [0];
      } else {
        buckets := buckets + [at];
        at := at + test[i];
      }
    }
  }

  lemma EmptySegment(names: seq<Key>, size: nat, b: nat, line: nat)
    requires 0 < size && 0 < line
    ensures Items(names, size, b) == [] ==> Segment(names, size, b, line) == 0
  {
  }

  // The elements are written, and then the terminators.
  method Fill(names: seq<Key>, size: nat, line: nat, elts: nat, test: array<nat>, buckets: seq<nat>)
      returns (mem: map<nat, Elt>)
    requires 0 < size == test.Length && 0 < line && 0 < elts && |buckets| == size
    requires forall b {:trigger buckets[b]} :: 0 <= b < size ==>
               buckets[b] == if Items(names, size, b) == [] then 0 else Base(names, size, b, line, elts)
    modifies test
    ensures Holds(Hash(size, buckets, mem), names, elts, line)
  {
    hide Items, SizeOf, Chain, Offset, Segment, Filled, Ended, Holds;
    var i := 0;
    while i < size
      invariant i <= size && forall b :: 0 <= b < i ==> test[b] == 0
    {
      test[i] := 0;
      i := i + 1;
    }
    mem := map[];
    FillNone(names, size, line, elts, test[..]);
    var n := 0;
    while n < |names|
      invariant n <= |names| && Filled(names, size, line, elts, mem, test[..], n)
    {
      if names[n].Key? {
        var key := names[n].hash % size;
        FillStep(names, size, line, elts, mem, test[..], n);
        mem := Put(mem, buckets[key] + test[key], names[n].value, Lower(names[n].name), buckets[key],
                   buckets[key] + Segment(names, size, key, line));
        ghost var before := test[..];
        test[key] := test[key] + EltSize(|names[n].name|);
        assert test[..] == before[key := test[key]];
      } else {
        FillSkip(names, size, line, elts, mem, test[..], n);
      }
      n := n + 1;
    }
    EndNone(names, size, line, elts, mem);
    i := 0;
    while i < size
      invariant i <= size && Filled(names, size, line, elts, mem, test[..], |names|)
                && Ended(names, size, line, elts, mem, i)
    {
      EndStep(names, size, line, elts, mem, test[..], i);
      if buckets[i] != 0 {
        mem := PutEnd(mem, buckets[i] + test[i], buckets[i], buckets[i] + Segment(names, size, i, line));
      }
      i := i + 1;
    }
    Finished(names, size, line, elts, mem, test[..], buckets);
  }

  lemma FillNone(names: seq<Key>, size: nat, line: nat, elts: nat, test: seq<nat>)
    requires 0 < size == |test| && 0 < line && forall b :: 0 <= b < size ==> test[b] == 0
    ensures Filled(names, size, line, elts, map[], test, 0)
  {
  }

  lemma EndNone(names: seq<Key>, size: nat, line: nat, elts: nat, mem: map<nat, Elt>)
    requires 0 < size && 0 < line
    ensures Ended(names, size, line, elts, mem, 0)
  {
  }

  // -------- ngx_hash_find --------

  // The value of the first item with that lower-case name.
  function FirstMatch(items: seq<Key>, name: string): nat {
    if items == [] then 0
    else if items[0].Key? && Lower(items[0].name) == name then items[0].value
    else FirstMatch(items[1..], name)
  }

  // The address ngx_align_ptr computes behind a name is that of the next element.
  lemma NextElement(a: nat, len: nat)
    requires a % PTR == 0
    ensures Align(a + PTR + 2 + len, PTR) == a + EltSize(len)
  {
  }

  lemma EltSizeAligned(len: nat)
    ensures EltSize(len) % PTR == 0
  {
  }

  lemma MultipleAligned(r: nat, line: nat)
    requires MultipleOf(r, line) && line % PTR == 0
    ensures r % PTR == 0
  {
    var q: nat :| r == q * line;
    var m := line / PTR;
    assert q * line == PTR * (q * m);
  }

  lemma {:induction false} OffsetAligned(names: seq<Key>, size: nat, b: nat, line: nat)
    requires 0 < size && 0 < line && line % PTR == 0
    ensures Offset(names, size, b, line) % PTR == 0
  {
    hide Segment;
    if b > 0 {
      OffsetAligned(names, size, b - 1, line);
      SegmentAligned(names, size, b - 1, line);
    }
  }

  lemma SegmentAligned(names: seq<Key>, size: nat, b: nat, line: nat)
    requires 0 < size && 0 < line && line % PTR == 0
    ensures Segment(names, size, b, line) % PTR == 0
  {
    hide Align, Items, SizeOf;
    if Items(names, size, b) != [] {
      MultipleAligned(Align(PTR + BucketSize(names, size, b), line), line);
    }
  }

  method SameName(x: string, y: string) returns (same: bool)
    ensures same <==> x == y
  {
    if |x| != |y| {
      return false;
    }
    var i := 0;
    while i < |x|
      invariant i <= |x| && x[..i] == y[..i]
    {
      if x[i] != y[i] {
        return false;
      }
      i := i + 1;
    }
    assert x[..|x|] == x && y[..|y|] == y;
    return true;
  }

  method Find(h: Hash, key: nat, name: string, ghost names: seq<Key>, ghost elts: nat, ghost line: nat)
      returns (value: nat)
    requires 0 < h.size && Holds(h, names, elts, line) && elts % PTR == 0 && line % PTR == 0
    requires forall n :: 0 <= n < |names| && names[n].Key? ==> names[n].value != 0
    ensures value == FirstMatch(Items(names, h.size, key % h.size), name)
  {
    hide Items, SizeOf, Offset, Lower, Align, Holds, FirstMatch, EltSize, Terminated, Chain, Segment, MultipleOf;
    ghost var b := key % h.size;
    ghost var items := Items(names, h.size, b);
    BucketOf(h, names, elts, line, b);
    var elt := h.buckets[key % h.size];
    if elt == 0 {
      NoMatchIn(items, name);
      return 0;
    }
    ghost var a, i := elt, 0;
    EmptyStart(items);
    Standing(h.mem, names, a, items, 0);
    while h.mem[elt].value != 0
      invariant i <= |items| && elt == a + SizeOf(items[..i]) && elt % PTR == 0 && elt in h.mem
      invariant if i < |items| then h.mem[elt] == Elt(items[i].value, Lower(items[i].name)) && items[i].Key?
                && items[i].value != 0
                else h.mem[elt].value == 0
      invariant FirstMatch(items, name) == FirstMatch(items[i..], name)
      decreases |items| - i
    {
      Standing(h.mem, names, a, items, i);
      MatchStep(items, i, name);
      var same := SameName(name, h.mem[elt].name);
      if same {
        return h.mem[elt].value;
      }
      NextElement(elt, |h.mem[elt].name|);
      EltSizeAligned(|h.mem[elt].name|);
      elt := Align(elt + PTR + 2 + |h.mem[elt].name|, PTR);
      i := i + 1;
      Standing(h.mem, names, a, items, i);
    }
    NoMatchIn(items[i..], name);
    return 0;
  }

  // A bucket of the hash: NULL, or the aligned start of its elements.
  lemma BucketOf(h: Hash, names: seq<Key>, elts: nat, line: nat, b: nat)
    requires Holds(h, names, elts, line) && elts % PTR == 0 && line % PTR == 0 && b < h.size
    requires forall n :: 0 <= n < |names| && names[n].Key? ==> names[n].value != 0
    ensures |h.buckets| == h.size
    ensures
      var items, a := Items(names, h.size, b), h.buckets[b];
      && (a == 0 <==> items == []) && (forall k :: k in items ==> k.Key? && k.value != 0)
      && (items != [] ==> a % PTR == 0 && Terminated(h.mem, a, items))
  {
    hide Items, SizeOf, Offset, Chain;
    assert BucketHolds(h, names, elts, line, b);
    OffsetAligned(names, h.size, b, line);
    var items := Items(names, h.size, b);
    forall k | k in items
      ensures k.value != 0
    {
      var n :| 0 <= n < |names| && names[n] == k;
    }
  }

  // The items from a on, and a terminator.
  ghost predicate Terminated(mem: map<nat, Elt>, a: nat, items: seq<Key>) {
    Chain(mem, a, items) && a + SizeOf(items) in mem && mem[a + SizeOf(items)].value == 0
  }

  lemma Standing(mem: map<nat, Elt>, names: seq<Key>, a: nat, items: seq<Key>, i: nat)
    requires Terminated(mem, a, items) && i <= |items| && forall k :: k in items ==> k.Key? && k.value != 0
    ensures
      var x := a + SizeOf(items[..i]);
      && x in mem
      && if i < |items| then mem[x] == Elt(items[i].value, Lower(items[i].name)) && items[i].Key? && items[i].value != 0
                             && SizeOf(items[..i + 1]) == SizeOf(items[..i]) + EltSize(|items[i].name|)
         else mem[x].value == 0
  {
    hide Chain, SizeOf, Lower;
    if i < |items| {
      ChainAt(mem, a, items, i);
      assert items[i] in items;
    } else {
      assert items[..i] == items;
    }
  }

  lemma NoMatchIn(items: seq<Key>, name: string)
    ensures items == [] ==> FirstMatch(items, name) == 0
  {
  }

  lemma MatchStep(items: seq<Key>, i: nat, name: string)
    requires i < |items| && items[i].Key?
    ensures FirstMatch(items[i..], name)
         == if Lower(items[i].name) == name then items[i].value else FirstMatch(items[i + 1..], name)
  {
    hide Lower;
    assert items[i..][1..] == items[i + 1..];
  }

  lemma EmptyStart(items: seq<Key>)
    ensures SizeOf(items[..0]) == 0 && items[0..] == items && (items == [] ==> items[..0] == items)
  {
  }

  // The names are distinct in lower case, and come with the hash of that.
  ghost predicate Proper(names: seq<Key>) {
    && (forall n {:trigger names[n]} ::
         0 <= n < |names| && names[n].Key? ==> names[n].hash == HashKey(Lower(names[n].name)))
    && (forall n, m :: 0 <= n < m < |names| && names[n].Key? && names[m].Key? ==>
         Lower(names[n].name) != Lower(names[m].name))
  }

  // What a lookup answers: the value stored with the name, or NULL.
  lemma Lookup(names: seq<Key>, size: nat, x: string)
    requires 0 < size && Proper(names)
    ensures
      var v := FirstMatch(Items(names, size, HashKey(x) % size), x);
      && (forall n {:trigger names[n]} ::
           0 <= n < |names| && names[n].Key? && Lower(names[n].name) == x ==> v == names[n].value)
      && ((forall n {:trigger names[n]} :: 0 <= n < |names| && names[n].Key? ==> Lower(names[n].name) != x) ==> v == 0)
  {
    hide HashKey, Lower;
    var b := HashKey(x) % size;
    var items := Items(names, size, b);
    MatchFound(items, x);
    forall n {:trigger names[n]} | 0 <= n < |names| && names[n].Key? && Lower(names[n].name) == x
      ensures FirstMatch(items, x) == names[n].value
    {
      ItemsHave(names, size, b, n);
      forall k | k in items && k.Key? && Lower(k.name) == x
        ensures k == names[n]
      {
        var m :| 0 <= m < |names| && names[m] == k;
      }
    }
    if forall n {:trigger names[n]} :: 0 <= n < |names| && names[n].Key? ==> Lower(names[n].name) != x {
      forall k | k in items && k.Key?
        ensures Lower(k.name) != x
      {
        var m :| 0 <= m < |names| && names[m] == k;
      }
    }
  }

  // A hash that has been built answers each of its names with the value stored with it, and
  // every other name with NULL, whether the size was found or the bucket size is passed.
  method Answer(names: seq<Key>, maxSize: nat, bucketSize: nat, line: nat, elts: nat, x: string)
      returns (r: Built, value: nat)
    requires PTR <= line <= WORD && line % PTR == 0 && MultipleOf(WORD - line, line) && 0 < elts && elts % PTR == 0
    requires Proper(names) && forall n :: 0 <= n < |names| && names[n].Key? ==> names[n].value != 0
    ensures r.Built? ==>
              && (forall n {:trigger names[n]} ::
                   0 <= n < |names| && names[n].Key? && Lowers(names[n].name, x) ==> value == names[n].value)
              && ((forall n {:trigger names[n]} :: 0 <= n < |names| && names[n].Key? ==> !Lowers(names[n].name, x)) ==>
                    value == 0)
  {
    hide HashKey, Lower, Lowers, Holds, Items, FirstMatch, Proper, Fits, MultipleOf;
    var size, found;
    value := 0;
    r, size, found := Init(names, maxSize, bucketSize, line, elts);
    if r.Built? {
      value := Find(r.hash, HashKey(x), x, names, elts, line);
      Lookup(names, size, x);
      forall n {:trigger names[n]} | 0 <= n < |names| && names[n].Key?
        ensures Lowers(names[n].name, x) <==> Lower(names[n].name) == x
      {
        LowersIs(names[n].name, x);
      }
    }
  }

  lemma {:induction false} ItemsHave(names: seq<Key>, size: nat, b: nat, n: nat)
    requires 0 < size && n < |names| && names[n].Key? && names[n].hash % size == b
    ensures names[n] in Items(names, size, b)
  {
    var last := |names| - 1;
    if n < last {
      ItemsHave(names[..last], size, b, n);
    }
  }

  // The first match is the value of some item with the name, if there is one.
  lemma {:induction false} MatchFound(items: seq<Key>, x: string)
    ensures (exists k :: k in items && k.Key? && Lower(k.name) == x && FirstMatch(items, x) == k.value)
            || (FirstMatch(items, x) == 0 && forall k :: k in items && k.Key? ==> Lower(k.name) != x)
  {
    hide Lower;
    if items != [] {
      assert items == [items[0]] + items[1..];
      MatchFound(items[1..], x);
      if items[0].Key? && Lower(items[0].name) == x {
        assert items[0] in items;
      }
    }
  }
}
