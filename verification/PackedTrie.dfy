// The wildcard tables in memory: a packed hash of labels and a value at every address, and
// values whose two low bits tell data from tables.

module PackedTrie {
  import opened DomainNames
  import opened WildcardTrie
  import opened MachineWords
  import PackedHash

  // What every call of ngx_hash_init is given; `elts` is where the elements start.
  datatype Setup = Setup(maxSize: nat, bucketSize: nat, line: nat, elts: nat)

  ghost predicate Sane(su: Setup) {
    && PackedHash.PTR <= su.line <= PackedHash.WORD && su.line % PackedHash.PTR == 0
    && MultipleOf(PackedHash.WORD - su.line, su.line)
    && 0 < su.elts && su.elts % PackedHash.PTR == 0
  }

  // ngx_hash_init cannot build a hash of these names.
  ghost predicate Fails(su: Setup, names: seq<PackedHash.Key>)
    requires Sane(su)
  {
    || PackedHash.Refused(names, su.maxSize, su.bucketSize, su.line)
    || PackedHash.ZeroDivisor(names, su.bucketSize)
    || exists size, found {:trigger Tried(su, names, size, found)} ::
         Tried(su, names, size, found) && PackedHash.TooLong(names, size, su.line)
  }

  ghost predicate Tried(su: Setup, names: seq<PackedHash.Key>, size: nat, found: bool) {
    var limit := PackedHash.Limit(su.bucketSize);
    2 * PackedHash.PTR <= limit
    && PackedHash.Chosen(names, PackedHash.StartSize(|names|, su.maxSize, limit), su.maxSize, limit, size, found)
  }

  // The names without their values
  function Blank(names: seq<PackedHash.Key>): (r: seq<PackedHash.Key>)
    ensures |r| == |names|
  {
    if names == [] then []
    else
      var n := |names| - 1;
      Blank(names[..n]) + [BlankOf(names[n])]
  }

  lemma {:induction false} BlankAt(names: seq<PackedHash.Key>)
    ensures forall i :: 0 <= i < |names| ==> Blank(names)[i] == BlankOf(names[i])
  {
    if names != [] {
      BlankAt(names[..|names| - 1]);
    }
  }

  function BlankOf(k: PackedHash.Key): (r: PackedHash.Key)
    ensures r.Key? == k.Key?
  {
    if k.Key? then k.(value := 0) else PackedHash.Skip
  }

  lemma BlankMore(names: seq<PackedHash.Key>, k: PackedHash.Key)
    ensures Blank(names + [k]) == Blank(names) + [BlankOf(k)]
  {
    assert (names + [k])[..|names|] == names;
  }

  // The name, if it goes into the bucket
  function InBucket(k: PackedHash.Key, size: nat, b: nat): seq<PackedHash.Key>
    requires 0 < size
  {
    if k.Key? && k.hash % size == b then [k] else []
  }

  lemma ItemsMore(names: seq<PackedHash.Key>, k: PackedHash.Key, size: nat, b: nat)
    requires 0 < size
    ensures PackedHash.Items([], size, b) == []
    ensures PackedHash.Items(names + [k], size, b) == PackedHash.Items(names, size, b) + InBucket(k, size, b)
  {
    assert (names + [k])[..|names|] == names;
  }

  lemma BlankJoin(items: seq<PackedHash.Key>, k: PackedHash.Key, size: nat, b: nat)
    requires 0 < size
    ensures Blank(items + InBucket(k, size, b)) == Blank(items) + InBucket(BlankOf(k), size, b)
  {
    hide Blank;
    if InBucket(k, size, b) == [] {
      assert items + InBucket(k, size, b) == items;
    } else {
      BlankMore(items, k);
    }
  }

  lemma {:induction false} BlankItems(names: seq<PackedHash.Key>, size: nat, b: nat)
    requires 0 < size
    ensures PackedHash.Items(Blank(names), size, b) == Blank(PackedHash.Items(names, size, b))
  {
    hide PackedHash.Items, InBucket, BlankOf;
    if names == [] {
      ItemsMore([], PackedHash.Skip, size, b);
    } else {
      var rest, k := names[..|names| - 1], names[|names| - 1];
      BlankItems(rest, size, b);
      BlankStep(rest, k, size, b);
      assert names == rest + [k];
    }
  }

  lemma BlankStep(rest: seq<PackedHash.Key>, k: PackedHash.Key, size: nat, b: nat)
    requires 0 < size && PackedHash.Items(Blank(rest), size, b) == Blank(PackedHash.Items(rest, size, b))
    ensures PackedHash.Items(Blank(rest + [k]), size, b) == Blank(PackedHash.Items(rest + [k], size, b))
  {
    hide *;
    BlankMore(rest, k);
    ItemsMore(rest, k, size, b);
    ItemsMore(Blank(rest), BlankOf(k), size, b);
    BlankJoin(PackedHash.Items(rest, size, b), k, size, b);
  }

  lemma {:induction false} BlankSize(items: seq<PackedHash.Key>)
    ensures PackedHash.SizeOf(Blank(items)) == PackedHash.SizeOf(items)
  {
    if items != [] {
      var n := |items| - 1;
      assert Blank(items)[..n] == Blank(items[..n]);
      BlankSize(items[..n]);
    }
  }

  lemma BlankBuckets(names: seq<PackedHash.Key>)
    ensures forall size: nat, b: nat {:trigger PackedHash.BucketSize(names, size, b)}
              {:trigger PackedHash.BucketSize(Blank(names), size, b)} :: 0 < size ==>
              && PackedHash.BucketSize(Blank(names), size, b) == PackedHash.BucketSize(names, size, b)
              && (PackedHash.Items(Blank(names), size, b) == [] <==> PackedHash.Items(names, size, b) == [])
  {
    hide PackedHash.Items, PackedHash.SizeOf, Blank;
    forall size: nat, b: nat | 0 < size
      ensures PackedHash.BucketSize(Blank(names), size, b) == PackedHash.BucketSize(names, size, b)
      ensures PackedHash.Items(Blank(names), size, b) == [] <==> PackedHash.Items(names, size, b) == []
    {
      BlankItems(names, size, b);
      BlankSize(PackedHash.Items(names, size, b));
    }
  }

  // Whether a hash can be built does not depend on the values.
  lemma BlankFails(su: Setup, names: seq<PackedHash.Key>)
    requires Sane(su)
    ensures Fails(su, Blank(names)) <==> Fails(su, names)
  {
    hide PackedHash.Items, PackedHash.BucketSize, Blank, PackedHash.StartSize, PackedHash.Limit, MultipleOf,
         PackedHash.EltSize, PackedHash.Chosen, PackedHash.TooLong, PackedHash.TooSmall;
    BlankAt(names);
    BlankSmall(names, su.bucketSize);
    forall size: nat, found: bool
      ensures Tried(su, Blank(names), size, found) == Tried(su, names, size, found)
      ensures PackedHash.TooLong(Blank(names), size, su.line) == PackedHash.TooLong(names, size, su.line)
    {
      BlankTooLong(names, size, su.line);
      var limit := PackedHash.Limit(su.bucketSize);
      if 2 * PackedHash.PTR <= limit {
        BlankChosen(names, PackedHash.StartSize(|names|, su.maxSize, limit), su.maxSize, limit, size, found);
      }
    }
  }

  lemma BlankSmall(names: seq<PackedHash.Key>, bucketSize: nat)
    ensures PackedHash.TooSmall(Blank(names), bucketSize) == PackedHash.TooSmall(names, bucketSize)
  {
    hide Blank, PackedHash.EltSize;
    BlankAt(names);
    var other := Blank(names);
    if n :| 0 <= n < |names| && names[n].Key? && bucketSize < PackedHash.EltSize(|names[n].name|) + PackedHash.PTR {
      assert other[n].Key? && other[n].name == names[n].name;
    }
  }

  lemma BlankTooLong(names: seq<PackedHash.Key>, size: nat, line: nat)
    requires line <= PackedHash.WORD
    ensures PackedHash.TooLong(Blank(names), size, line) == PackedHash.TooLong(names, size, line)
  {
    hide Blank, PackedHash.Items, PackedHash.BucketSize;
    BlankBuckets(names);
  }

  lemma BlankChosen(names: seq<PackedHash.Key>, start: nat, maxSize: nat, limit: nat, size: nat, found: bool)
    ensures PackedHash.Chosen(Blank(names), start, maxSize, limit, size, found)
            == PackedHash.Chosen(names, start, maxSize, limit, size, found)
  {
    hide Blank, PackedHash.Items, PackedHash.BucketSize, PackedHash.Fits;
    forall s: nat
      ensures PackedHash.Fits(Blank(names), s, limit) == PackedHash.Fits(names, s, limit)
    {
      BlankFits(names, s, limit);
    }
  }

  lemma BlankFits(names: seq<PackedHash.Key>, size: nat, limit: nat)
    ensures PackedHash.Fits(Blank(names), size, limit) == PackedHash.Fits(names, size, limit)
  {
    hide Blank, PackedHash.Items, PackedHash.BucketSize;
    BlankBuckets(names);
  }

  // A hash of distinct lower-case names with values
  ghost predicate Filled(su: Setup, h: PackedHash.Hash, names: seq<PackedHash.Key>) {
    && PackedHash.Holds(h, names, su.elts, su.line) && 0 < h.size && PackedHash.Proper(names)
    && forall i :: 0 <= i < |names| ==> names[i].Key? && names[i].value != 0
                                        && PackedHash.Lower(names[i].name) == names[i].name
  }

  // ngx_hash_init on such names
  method Build(su: Setup, names: seq<PackedHash.Key>) returns (made: bool, h: PackedHash.Hash)
    requires Sane(su) && PackedHash.Proper(names)
    requires forall i :: 0 <= i < |names| ==> names[i].Key? && names[i].value != 0
                                              && PackedHash.Lower(names[i].name) == names[i].name
    ensures made <==> !Fails(su, names)
    ensures made ==> Filled(su, h, names)
  {
    hide PackedHash.Holds, PackedHash.Refused, PackedHash.TooLong, PackedHash.Chosen, PackedHash.StartSize,
         PackedHash.Limit, PackedHash.ZeroDivisor, PackedHash.Proper, MultipleOf, PackedHash.Lower;
    var r, size, found := PackedHash.Init(names, su.maxSize, su.bucketSize, su.line, su.elts);
    h := if r.Built? then r.hash else PackedHash.Hash(1, [], map[]);
    made := r.Built?;
    if !PackedHash.Refused(names, su.maxSize, su.bucketSize, su.line) && !PackedHash.ZeroDivisor(names, su.bucketSize) {
      assert Tried(su, names, size, found);
      forall size', found' | Tried(su, names, size', found')
        ensures size' == size
      {
        OneSize(names, PackedHash.StartSize(|names|, su.maxSize, PackedHash.Limit(su.bucketSize)), su.maxSize,
                PackedHash.Limit(su.bucketSize), size, found, size', found');
      }
    }
  }

  lemma OneSize(names: seq<PackedHash.Key>, start: nat, maxSize: nat, limit: nat, size: nat, found: bool, size': nat,
                found': bool)
    requires PackedHash.Chosen(names, start, maxSize, limit, size, found)
    requires PackedHash.Chosen(names, start, maxSize, limit, size', found')
    ensures size == size' && found == found'
  {
    hide PackedHash.Fits;
  }

  // What ngx_hash_find answers for a name
  function Sought(h: PackedHash.Hash, names: seq<PackedHash.Key>, name: string): nat
    requires 0 < h.size
  {
    PackedHash.FirstMatch(PackedHash.Items(names, h.size, PackedHash.HashKey(name) % h.size), name)
  }

  lemma SoughtIs(su: Setup, h: PackedHash.Hash, names: seq<PackedHash.Key>, name: string)
    requires Filled(su, h, names)
    ensures forall i :: 0 <= i < |names| && names[i].name == name ==> Sought(h, names, name) == names[i].value
    ensures (forall i :: 0 <= i < |names| ==> names[i].name != name) ==> Sought(h, names, name) == 0
  {
    hide PackedHash.Holds, PackedHash.Proper, PackedHash.Lower, PackedHash.FirstMatch, PackedHash.Items,
         PackedHash.HashKey;
    PackedHash.Lookup(names, h.size, name);
  }

  // The key of a name, one character after the other, and the search
  method Seek(su: Setup, h: PackedHash.Hash, name: string, ghost names: seq<PackedHash.Key>) returns (value: nat)
    requires Sane(su) && Filled(su, h, names)
    ensures value == Sought(h, names, name)
  {
    hide PackedHash.Holds, PackedHash.Proper, PackedHash.Lower, PackedHash.FirstMatch, PackedHash.Items,
         MultipleOf;
    var key, i := 0, 0;
    assert name[..0] == [];
    while i < |name|
      invariant i <= |name| && key == PackedHash.HashKey(name[..i])
    {
      assert name[..i + 1][..i] == name[..i];
      key := PackedHash.NextKey(key, name[i]);
      i := i + 1;
    }
    assert name[..i] == name;
    value := PackedHash.Find(h, key, name, names, su.elts, su.line);
  }

  // -------- tables --------

  // ngx_hash_wildcard_t
  datatype Node = Node(hash: PackedHash.Hash, value: nat)

  type Tables = map<nat, Node>

  // The labels that have gone into the table at each address
  type Lists = map<nat, seq<PackedHash.Key>>

  ghost predicate Stands(ts: Tables, ns: Lists, su: Setup, a: nat) {
    a != 0 && a % 4 == 0 && a in ts && a in ns && Filled(su, ts[a].hash, ns[a])
  }

  // The table at address `a` is `wc`. It has been built after the tables that it leads to.
  ghost predicate Packs(ts: Tables, ns: Lists, su: Setup, a: nat, wc: Wc, n: nat)
    decreases n, 1
  {
    && Stands(ts, ns, su, a) && ts[a].value == wc.value
    && (forall i {:trigger ns[a][i]} :: 0 <= i < |ns[a]| ==>
          ns[a][i].Key? && ns[a][i].name in wc.hash
          && PacksAt(ts, ns, su, a, ns[a][i].value, wc.hash[ns[a][i].name], n))
    && forall l :: l in wc.hash ==> exists i :: 0 <= i < |ns[a]| && ns[a][i].Key? && ns[a][i].name == l
  }

  // The value is the tagged one.
  ghost predicate PacksAt(ts: Tables, ns: Lists, su: Setup, a: nat, v: nat, t: Tagged, n: nat)
    decreases n, 0
  {
    match t
    case Data(d, below) => d != 0 && d % 4 == 0 && v == d + (if below then 1 else 0)
    case Table(w, below) =>
      v % 4 == (if below then 3 else 2) && v - v % 4 < a && n > 0 && Packs(ts, ns, su, v - v % 4, w, n - 1)
  }

  // Tables up to an address do not depend on the later ones.
  ghost predicate Same(ts: Tables, ns: Lists, ts': Tables, ns': Lists, a: nat) {
    && (forall x :: x in ts && x < a ==> x in ts' && ts'[x] == ts[x])
    && (forall x :: x in ns && x < a ==> x in ns' && ns'[x] == ns[x])
  }

  lemma {:induction false} PacksFrame(ts: Tables, ns: Lists, ts': Tables, ns': Lists, su: Setup, a: nat, wc: Wc, n: nat)
    requires Packs(ts, ns, su, a, wc, n) && Same(ts, ns, ts', ns', a + 1)
    ensures Packs(ts', ns', su, a, wc, n)
    decreases n, 1
  {
    hide Filled;
    forall i | 0 <= i < |ns[a]|
      ensures PacksAt(ts', ns', su, a, ns[a][i].value, wc.hash[ns[a][i].name], n)
    {
      PacksAtFrame(ts, ns, ts', ns', su, a, a, ns[a][i].value, wc.hash[ns[a][i].name], n);
    }
  }

  lemma {:induction false} PacksAtFrame(ts: Tables, ns: Lists, ts': Tables, ns': Lists, su: Setup, a: nat, a': nat,
                                        v: nat, t: Tagged, n: nat)
    requires PacksAt(ts, ns, su, a, v, t, n) && Same(ts, ns, ts', ns', a) && a <= a'
    ensures PacksAt(ts', ns', su, a', v, t, n)
    decreases n, 0
  {
    if t.Table? {
      PacksFrame(ts, ns, ts', ns', su, v - v % 4, t.wc, n - 1);
    }
  }

  // The value of a table is set.
  lemma ValueSet(ts: Tables, ns: Lists, su: Setup, a: nat, wc: Wc, n: nat, value: nat)
    requires Packs(ts, ns, su, a, wc, n)
    ensures Packs(ts[a := ts[a].(value := value)], ns, su, a, wc.(value := value), n)
  {
    hide Filled, PacksAt;
    var ts' := ts[a := ts[a].(value := value)];
    forall i | 0 <= i < |ns[a]|
      ensures PacksAt(ts', ns, su, a, ns[a][i].value, wc.hash[ns[a][i].name], n)
    {
      PacksAtFrame(ts, ns, ts', ns, su, a, a, ns[a][i].value, wc.hash[ns[a][i].name], n);
    }
  }

  // -------- one step of a lookup --------

  // What the search for a label in a table says
  lemma SoughtIn(ts: Tables, ns: Lists, su: Setup, a: nat, wc: Wc, n: nat, l: string)
    requires Packs(ts, ns, su, a, wc, n)
    ensures Filled(su, ts[a].hash, ns[a]) && ts[a].hash.size > 0
    ensures l in wc.hash ==> Sought(ts[a].hash, ns[a], l) != 0
                             && PacksAt(ts, ns, su, a, Sought(ts[a].hash, ns[a], l), wc.hash[l], n)
    ensures l !in wc.hash ==> Sought(ts[a].hash, ns[a], l) == 0
  {
    hide PacksAt, Sought, PackedHash.Holds, PackedHash.Proper, PackedHash.Lower;
    SoughtIs(su, ts[a].hash, ns[a], l);
    if l in wc.hash {
      var i :| 0 <= i < |ns[a]| && ns[a][i].Key? && ns[a][i].name == l;
      assert PacksAt(ts, ns, su, a, ns[a][i].value, wc.hash[ns[a][i].name], n);
    }
  }
}
