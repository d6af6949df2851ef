// Building the wildcard tables of ngx_hash.c from sorted names, and the lookups.

module WildcardHash {
  import opened DomainNames
  import opened WildcardTrie
  import opened PackedTrie
  import PackedHash

  datatype Key = Key(name: string, value: nat)

  // -------- sorted names --------

  ghost predicate Sorted(keys: seq<Key>) {
    forall i, j :: 0 <= i < j < |keys| ==> Less(keys[i].name, keys[j].name)
  }

  ghost predicate AllClean(keys: seq<Key>) {
    forall i {:trigger keys[i]} :: 0 <= i < |keys| ==> Clean(keys[i].name)
  }

  // Names in lower case, and values whose two low bits are free
  ghost predicate Storable(keys: seq<Key>) {
    forall i {:trigger keys[i]} :: 0 <= i < |keys| ==>
      PackedHash.Lower(keys[i].name) == keys[i].name && keys[i].value != 0 && keys[i].value % 4 == 0
  }

  function MapOf(keys: seq<Key>): Names {
    if keys == [] then map[] else MapOf(keys[..|keys| - 1])[keys[|keys| - 1].name := keys[|keys| - 1].value]
  }

  lemma {:induction false} MapOfHas(keys: seq<Key>)
    requires Sorted(keys)
    ensures forall i {:trigger keys[i]} ::
              0 <= i < |keys| ==> keys[i].name in MapOf(keys) && MapOf(keys)[keys[i].name] == keys[i].value
    ensures forall k :: k in MapOf(keys) ==> exists i :: 0 <= i < |keys| && keys[i].name == k
  {
    if keys != [] {
      var rest, last := keys[..|keys| - 1], keys[|keys| - 1];
      MapOfHas(rest);
      forall i | 0 <= i < |rest|
        ensures rest[i].name != last.name
      {
        LessAntisymmetric(rest[i].name, last.name);
      }
      forall i | 0 <= i < |keys|
        ensures keys[i].name in MapOf(keys) && MapOf(keys)[keys[i].name] == keys[i].value
      {
        assert i < |rest| ==> rest[i] == keys[i];
      }
      forall k | k in MapOf(keys)
        ensures exists i :: 0 <= i < |keys| && keys[i].name == k
      {
        if k != last.name {
          assert k in MapOf(rest);
          var i :| 0 <= i < |rest| && rest[i].name == k;
          assert keys[i].name == k;
        }
      }
    }
  }

  // -------- one group of names with the same first label --------

  // What ngx_strncmp and the test after it find out about the next name.
  predicate SameGroup(first: string, name: string) {
    var l := First(first);
    if HasDot(first) then l + "." <= name
    else l <= name && (|name| > |l| ==> name[|l|] == '.')
  }

  lemma SameGroupLabel(first: string, name: string)
    ensures SameGroup(first, name) ==> First(name) == First(first)
    ensures First(name) == First(first) && (HasDot(first) ==> HasDot(name)) ==> SameGroup(first, name)
  {
    var l := First(first);
    Parted(first);
    Parted(name);
    if SameGroup(first, name) {
      if |name| > |l| {
        var t := name[|l| + 1..];
        assert name == l + "." + t;
        Joined(l, t);
      } else {
        assert name == l;
        Single(l);
      }
    }
  }

  // The names of one label, from the first one on.
  ghost predicate Group(keys: seq<Key>, n: nat, e: nat) {
    n < e <= |keys| && forall i :: n <= i < e ==> First(keys[i].name) == First(keys[n].name)
  }

  // The label alone, and the label with a dot, come before what is longer.
  lemma ShortFirst(l: string, a: string)
    requires First(a) == l
    ensures a == l || Less(l, a)
    ensures a == l || a == l + "." || Less(l + ".", a)
  {
    Parted(a);
    if HasDot(a) {
      assert l <= a && l + "." <= a;
      PrefixLess(l, a);
      if a != l + "." {
        PrefixLess(l + ".", a);
      }
    }
  }

  // Later names of a group are longer than the label and its dot.
  lemma LaterNames(keys: seq<Key>, m: Names, n: nat, i: nat)
    requires Sorted(keys) && Good(m) && m == MapOf(keys) && n < i < |keys| && First(keys[i].name) == First(keys[n].name)
    ensures HasDot(keys[i].name) && Rest(keys[i].name) != ""
    ensures keys[i].name == First(keys[n].name) + "." + Rest(keys[i].name)
  {
    hide First, HasDot, Rest, Named, Clean, Less, MapOf;
    var a, b := keys[n].name, keys[i].name;
    var l := First(a);
    MapOfHas(keys);
    Parted(b);
    ShortFirst(l, a);
    LessAntisymmetric(a, b);
    assert !HasDot(b) ==> b == l;
    assert HasDot(b) && Rest(b) == "" ==> b == l + ".";
    assert a in m && b in m && !(l in m && l + "." in m);
  }

  // What is left of the names from n to e without their first label.
  ghost function Rests(keys: seq<Key>, n: nat, e: nat): seq<Key>
    requires n < e <= |keys|
    decreases e
  {
    var last := keys[e - 1];
    var tail := if HasDot(last.name) && Rest(last.name) != "" then [Key(Rest(last.name), last.value)] else [];
    if e == n + 1 then tail else Rests(keys, n, e - 1) + tail
  }

  // `k` is what the label l leaves of name i.
  ghost predicate Leaves(keys: seq<Key>, l: string, i: nat, k: Key) {
    i < |keys| && k.name != "" && keys[i].name == l + "." + k.name && keys[i].value == k.value
  }

  lemma {:induction false} RestsFrom(keys: seq<Key>, n: nat, e: nat, l: string)
    requires Sorted(keys) && Group(keys, n, e) && l == First(keys[n].name) && AllClean(keys)
    ensures forall x :: x in Rests(keys, n, e) ==> exists i :: n <= i < e && Leaves(keys, l, i, x)
    ensures forall i, x :: n <= i < e && Leaves(keys, l, i, x) ==> x in Rests(keys, n, e)
    ensures Sorted(Rests(keys, n, e)) && AllClean(Rests(keys, n, e))
    decreases e
  {
    hide Less, First, HasDot, Rest;
    var last, r := keys[e - 1], Rests(keys, n, e);
    assert '.' !in l by {
      Parted(keys[n].name);
    }
    Parted(last.name);
    var tail := if HasDot(last.name) && Rest(last.name) != "" then [Key(Rest(last.name), last.value)] else [];
    forall x
      ensures x in tail <==> Leaves(keys, l, e - 1, x)
    {
      if Leaves(keys, l, e - 1, x) {
        Joined(l, x.name);
      }
    }
    CleanTail(keys, e - 1, l, tail);
    if e == n + 1 {
      assert forall i, x :: n <= i < e && Leaves(keys, l, i, x) ==> i == e - 1;
    } else {
      var before := Rests(keys, n, e - 1);
      RestsFrom(keys, n, e - 1, l);
      assert r == before + tail;
      forall i, x | n <= i < e && Leaves(keys, l, i, x)
        ensures x in r
      {
        if i == e - 1 {
          assert x in tail;
        } else {
          assert x in before;
        }
      }
      RestsSorted(keys, n, e, l, before, tail);
    }
  }

  lemma CleanTail(keys: seq<Key>, i: nat, l: string, tail: seq<Key>)
    requires AllClean(keys) && i < |keys| && |tail| <= 1 && (tail != [] ==> Leaves(keys, l, i, tail[0]))
    ensures AllClean(tail)
  {
    if tail != [] {
      var s, t := keys[i].name, tail[0].name;
      assert Clean(s);
      assert forall j :: 0 <= j < |t| ==> t[j] == s[|l| + 1 + j];
    }
  }

  lemma RestsSorted(keys: seq<Key>, n: nat, e: nat, l: string, before: seq<Key>, tail: seq<Key>)
    requires Sorted(keys) && n + 1 < e <= |keys| && Sorted(before) && AllClean(before) && AllClean(tail) && |tail| <= 1
    requires forall x :: x in before ==> exists i :: n <= i < e - 1 && Leaves(keys, l, i, x)
    requires tail != [] ==> Leaves(keys, l, e - 1, tail[0])
    ensures Sorted(before + tail) && AllClean(before + tail)
  {
    hide Less;
    var r := before + tail;
    forall a, b | 0 <= a < b < |r|
      ensures Less(r[a].name, r[b].name)
    {
      if b == |before| {
        assert before[a] in before;
        var i :| n <= i < e - 1 && Leaves(keys, l, i, before[a]);
        LessPrefixed(l + ".", before[a].name, tail[0].name);
      }
    }
  }

  // -------- the table under construction --------

  ghost predicate TableOf(keys: seq<Key>, hash: map<string, Tagged>, m: Names, bound: nat, n: nat) {
    && n <= |keys|
    && (forall i :: 0 <= i < n ==> First(keys[i].name) in hash)
    && (forall l :: l in hash ==> exists i :: 0 <= i < n && First(keys[i].name) == l)
    && (forall l :: l in hash ==> RepAt(hash[l], m, l, bound))
    && (forall i, j :: 0 <= i < n <= j < |keys| ==> First(keys[i].name) != First(keys[j].name))
  }

  // The group ends where Collect stops.
  lemma GroupEnds(keys: seq<Key>, m: Names, n: nat, e: nat)
    requires Sorted(keys) && AllClean(keys) && Good(m) && m == MapOf(keys)
    requires n < e <= |keys| && (forall i :: n < i < e ==> SameGroup(keys[n].name, keys[i].name))
    requires e < |keys| ==> !SameGroup(keys[n].name, keys[e].name)
    ensures Group(keys, n, e) && forall j :: e <= j < |keys| ==> First(keys[j].name) != First(keys[n].name)
  {
    hide Less, First, HasDot, Rest, Good, MapOf, SameGroup, Clean;
    var l := First(keys[n].name);
    forall i | n < i < e
      ensures First(keys[i].name) == l
    {
      SameGroupLabel(keys[n].name, keys[i].name);
    }
    if e < |keys| {
      StopsAt(keys, m, n, e);
      forall j | e < j < |keys|
        ensures First(keys[j].name) != l
      {
        Parted(keys[n].name);
        if First(keys[j].name) == l {
          Between(l, keys[n].name, keys[e].name, keys[j].name);
        }
      }
    }
  }

  lemma StopsAt(keys: seq<Key>, m: Names, n: nat, e: nat)
    requires Sorted(keys) && Good(m) && m == MapOf(keys) && n < e < |keys|
    requires !SameGroup(keys[n].name, keys[e].name)
    ensures First(keys[e].name) != First(keys[n].name)
  {
    hide Less, First, HasDot, Rest, Good, MapOf, SameGroup, Sorted;
    SameGroupLabel(keys[n].name, keys[e].name);
    if First(keys[e].name) == First(keys[n].name) {
      LaterNames(keys, m, n, e);
    }
  }

  // The names below the label are those collected, and the label itself can only be first.
  lemma GroupSub(keys: seq<Key>, hash: map<string, Tagged>, m: Names, bound: nat, n: nat, e: nat, next: seq<Key>)
    requires Sorted(keys) && AllClean(keys) && Good(m) && m == MapOf(keys) && AllWithin(m, bound)
    requires TableOf(keys, hash, m, bound, n) && n < e <= |keys|
    requires Group(keys, n, e) && (forall j :: e <= j < |keys| ==> First(keys[j].name) != First(keys[n].name))
    requires next == Rests(keys, n, e)
    ensures
      var l := First(keys[n].name);
      && Sorted(next) && AllClean(next) && MapOf(next) == Sub(m, l) && Good(MapOf(next))
      && (next != [] ==> bound > 0 && AllWithin(MapOf(next), bound - 1) && Sub(m, l) != map[])
      && (next == [] ==> Sub(m, l) == map[])
  {
    hide Less, First, HasDot, Rest, Good, MapOf, Sub, RepAt, Rests, AllWithin;
    var l := First(keys[n].name);
    Parted(keys[n].name);
    MapOfHas(keys);
    RestsFrom(keys, n, e, l);
    MapOfHas(next);
    SubFacts(m, l);
    SubGood(m, l);
    forall k
      ensures k in MapOf(next) <==> k in Sub(m, l)
      ensures k in MapOf(next) ==> MapOf(next)[k] == Sub(m, l)[k]
    {
      if k in MapOf(next) {
        var x :| 0 <= x < |next| && next[x].name == k;
        assert next[x] in next;
        var i :| n <= i < e && Leaves(keys, l, i, next[x]);
      }
      if k in Sub(m, l) {
        var i :| 0 <= i < |keys| && keys[i].name == l + "." + k;
        Joined(l, k);
        assert n <= i < e;
        assert Leaves(keys, l, i, Key(k, keys[i].value));
      }
    }
    if next != [] {
      assert next[0].name in MapOf(next);
      SubWithin(m, l, bound);
    } else {
      EmptyMap(next);
    }
  }

  lemma EmptyMap(keys: seq<Key>)
    ensures keys == [] ==> MapOf(keys) == map[]
  {
  }

  lemma SubWithin(m: Names, l: string, bound: nat)
    requires AllWithin(m, bound) && Sub(m, l) != map[]
    ensures bound > 0 && AllWithin(Sub(m, l), bound - 1)
  {
    SubFacts(m, l);
    forall k | k in Sub(m, l)
      ensures |k| + 1 <= bound
    {
      assert |l + "." + k| >= |k| + 1;
    }
    var k :| k in Sub(m, l);
    assert |k| + 1 <= bound;
  }

  lemma BaseFirst(keys: seq<Key>, m: Names, n: nat, e: nat)
    requires Sorted(keys) && Good(m) && m == MapOf(keys) && Group(keys, n, e)
    requires forall j :: (0 <= j < n || e <= j < |keys|) ==> First(keys[j].name) != First(keys[n].name)
    ensures
      var l, first := First(keys[n].name), keys[n];
      && (l in m <==> first.name == l) && (l + "." in m <==> first.name == l + ".")
      && BaseValue(m, l) == (if first.name == l || first.name == l + "." then first.value else 0)
      && (first.name == l <==> !HasDot(first.name))
      && (first.name == l || first.name == l + "." || (HasDot(first.name) && Rest(first.name) in Sub(m, l)))
  {
    hide Less, Good, MapOf, Named, Sub;
    var l := First(keys[n].name);
    Parted(keys[n].name);
    MapOfHas(keys);
    SubFacts(m, l);
    Single(l);
    Joined(l, "");
    assert l + "." + "" == l + ".";
    forall i | 0 <= i < |keys| && (keys[i].name == l || keys[i].name == l + ".")
      ensures i == n
    {
      assert n <= i < e;
      if i > n {
        LaterNames(keys, m, n, i);
      }
    }
  }

  lemma TableNext(keys: seq<Key>, hash: map<string, Tagged>, m: Names, bound: nat, n: nat, e: nat, t: Tagged)
    requires TableOf(keys, hash, m, bound, n) && Group(keys, n, e)
    requires forall j :: e <= j < |keys| ==> First(keys[j].name) != First(keys[n].name)
    requires RepAt(t, m, First(keys[n].name), bound)
    ensures TableOf(keys, hash[First(keys[n].name) := t], m, bound, e)
  {
    hide First, RepAt;
    var l := First(keys[n].name);
    var hash' := hash[l := t];
    forall x | x in hash'
      ensures exists i :: 0 <= i < e && First(keys[i].name) == x
    {
      if x == l {
        assert First(keys[n].name) == x;
      }
    }
  }

  lemma TableDone(keys: seq<Key>, hash: map<string, Tagged>, m: Names, bound: nat)
    requires Sorted(keys) && m == MapOf(keys) && AllWithin(m, bound) && TableOf(keys, hash, m, bound, |keys|)
    ensures Rep(Wc(hash, 0), m, bound)
  {
    hide First, RepAt, MapOf, Less, AllWithin;
    MapOfHas(keys);
    forall l | l in hash
      ensures exists k :: k in m && First(k) == l
    {
      var i :| 0 <= i < |keys| && First(keys[i].name) == l;
      assert keys[i].name in m;
    }
    forall k | k in m
      ensures First(k) in hash
    {
      var i :| 0 <= i < |keys| && keys[i].name == k;
    }
  }

  lemma TableRep(m: Names, l: string, bound: nat, w: Wc, below: Names, dot: bool)
    requires bound > 0 && below == Sub(m, l) && below != map[] && Rep(w, below, bound - 1)
    requires w.value == BaseValue(m, l) && (dot <==> l !in m)
    ensures RepAt(Table(w, dot), m, l, bound)
  {
    hide Rep;
  }

  lemma RepValue(w: Wc, m: Names, bound: nat, v: nat)
    requires Rep(w, m, bound)
    ensures Rep(w.(value := v), m, bound)
  {
  }

  lemma DataRep(m: Names, l: string, bound: nat, v: nat, dot: bool)
    requires Sub(m, l) == map[] && (if dot then l + "." in m else l in m) && v == BaseValue(m, l)
    ensures RepAt(Data(v, dot), m, l, bound)
  {
  }

  // -------- the labels of a table --------

  // One label with its hash and its tagged value
  ghost predicate LabelAt(ts: Tables, ns: Lists, su: Setup, next: nat, k: PackedHash.Key, hash: map<string, Tagged>,
                          bound: nat) {
    && k.Key? && k.value != 0 && k.hash == PackedHash.HashKey(k.name) && PackedHash.Lower(k.name) == k.name
    && k.name in hash && PacksAt(ts, ns, su, next, k.value, hash[k.name], bound)
  }

  // The labels so far are those of the table under construction.
  ghost predicate Labels(ts: Tables, ns: Lists, su: Setup, next: nat, cur: seq<PackedHash.Key>,
                         hash: map<string, Tagged>, bound: nat) {
    && (forall i :: 0 <= i < |cur| ==> LabelAt(ts, ns, su, next, cur[i], hash, bound))
    && (forall l :: l in hash ==> exists i :: 0 <= i < |cur| && cur[i].Key? && cur[i].name == l)
    && forall i, j :: 0 <= i < j < |cur| && cur[i].Key? && cur[j].Key? ==> cur[i].name != cur[j].name
  }

  // All tables are below the next address.
  ghost predicate Below(ts: Tables, ns: Lists, next: nat) {
    next != 0 && next % 4 == 0 && (forall x :: x in ts ==> x < next) && forall x :: x in ns ==> x < next
  }

  lemma LabelsMore(ts: Tables, ns: Lists, ts': Tables, ns': Lists, su: Setup, next: nat, next': nat,
                   cur: seq<PackedHash.Key>, k: PackedHash.Key, hash: map<string, Tagged>, t: Tagged, bound: nat)
    requires Labels(ts, ns, su, next, cur, hash, bound) && Same(ts, ns, ts', ns', next) && next <= next'
    requires k.Key? && k.name !in hash && LabelAt(ts', ns', su, next', k, hash[k.name := t], bound)
    ensures Labels(ts', ns', su, next', cur + [k], hash[k.name := t], bound)
  {
    hide PacksAt, PackedHash.Lower, PackedHash.HashKey, Same;
    var cur', hash' := cur + [k], hash[k.name := t];
    forall i | 0 <= i < |cur'|
      ensures LabelAt(ts', ns', su, next', cur'[i], hash', bound)
    {
      if i < |cur| {
        assert LabelAt(ts, ns, su, next, cur[i], hash, bound);
        PacksAtFrame(ts, ns, ts', ns', su, next, next', cur[i].value, hash[cur[i].name], bound);
      }
    }
    forall l | l in hash'
      ensures exists i :: 0 <= i < |cur'| && cur'[i].Key? && cur'[i].name == l
    {
      if l == k.name {
        assert cur'[|cur|].name == l;
      } else {
        var i :| 0 <= i < |cur| && cur[i].Key? && cur[i].name == l;
        assert cur'[i].name == l;
      }
    }
    forall i | 0 <= i < |cur|
      ensures cur[i].Key? ==> cur[i].name != k.name
    {
      assert LabelAt(ts, ns, su, next, cur[i], hash, bound);
    }
  }

  lemma LabelsProper(ts: Tables, ns: Lists, su: Setup, next: nat, cur: seq<PackedHash.Key>, hash: map<string, Tagged>,
                     bound: nat)
    requires Labels(ts, ns, su, next, cur, hash, bound)
    ensures PackedHash.Proper(cur)
    ensures forall i :: 0 <= i < |cur| ==> cur[i].Key? && cur[i].value != 0
                                           && PackedHash.Lower(cur[i].name) == cur[i].name
  {
    hide PacksAt, PackedHash.Lower, PackedHash.HashKey;
    forall i | 0 <= i < |cur|
      ensures cur[i].Key? && cur[i].value != 0 && PackedHash.Lower(cur[i].name) == cur[i].name
      ensures cur[i].hash == PackedHash.HashKey(cur[i].name)
    {
      assert LabelAt(ts, ns, su, next, cur[i], hash, bound);
    }
  }

  // The table gets the next address.
  lemma Placed(ts: Tables, ns: Lists, su: Setup, next: nat, cur: seq<PackedHash.Key>, hash: map<string, Tagged>,
               bound: nat, h: PackedHash.Hash)
    requires Labels(ts, ns, su, next, cur, hash, bound) && Below(ts, ns, next) && Filled(su, h, cur)
    ensures Packs(ts[next := Node(h, 0)], ns[next := cur], su, next, Wc(hash, 0), bound)
    ensures Below(ts[next := Node(h, 0)], ns[next := cur], next + 4)
    ensures Same(ts, ns, ts[next := Node(h, 0)], ns[next := cur], next)
  {
    hide PacksAt, Filled, PackedHash.Lower, PackedHash.HashKey;
    var ts', ns' := ts[next := Node(h, 0)], ns[next := cur];
    forall i | 0 <= i < |cur|
      ensures cur[i].Key? && cur[i].name in hash && PacksAt(ts', ns', su, next, cur[i].value, hash[cur[i].name], bound)
    {
      assert LabelAt(ts, ns, su, next, cur[i], hash, bound);
      PacksAtFrame(ts, ns, ts', ns', su, next, next, cur[i].value, hash[cur[i].name], bound);
    }
  }

  // -------- when a table cannot be built --------

  // What goes into the table of these names: their first labels, with the hashes.
  ghost function LabelKeys(keys: seq<Key>): seq<PackedHash.Key> {
    if keys == [] then []
    else
      var n := |keys| - 1;
      var l := First(keys[n].name);
      LabelKeys(keys[..n])
      + if n > 0 && First(keys[n - 1].name) == l then [] else [PackedHash.Key(l, PackedHash.HashKey(l), 0)]
  }

  // What is below a label
  ghost function Under(keys: seq<Key>, l: string): seq<Key> {
    if keys == [] then []
    else Under(keys[..|keys| - 1], l) + RestOf(keys[|keys| - 1], l)
  }

  ghost function RestOf(k: Key, l: string): seq<Key> {
    if First(k.name) == l && HasDot(k.name) && Rest(k.name) != "" then [Key(Rest(k.name), k.value)] else []
  }

  // ngx_hash_init fails for the table that these labels lead to.
  ghost predicate BlockedAt(su: Setup, keys: seq<Key>, path: seq<string>)
    requires Sane(su)
    decreases |path|
  {
    if path == [] then Fails(su, LabelKeys(keys))
    else Under(keys, path[0]) != [] && BlockedAt(su, Under(keys, path[0]), path[1..])
  }

  // It does so somewhere.
  ghost predicate Blocked(su: Setup, keys: seq<Key>)
    requires Sane(su)
  {
    exists path :: BlockedAt(su, keys, path)
  }

  ghost predicate BlockedBelow(su: Setup, keys: seq<Key>, l: string)
    requires Sane(su)
  {
    Under(keys, l) != [] && Blocked(su, Under(keys, l))
  }

  lemma BlockedThere(su: Setup, keys: seq<Key>, l: string)
    requires Sane(su) && BlockedBelow(su, keys, l)
    ensures Blocked(su, keys)
  {
    hide Fails, Under, LabelKeys;
    var path: seq<string> :| BlockedAt(su, Under(keys, l), path);
    var longer := [l] + path;
    assert longer[1..] == path;
    assert BlockedAt(su, keys, longer);
  }

  lemma BlockedHere(su: Setup, keys: seq<Key>)
    requires Sane(su) && Fails(su, LabelKeys(keys))
    ensures Blocked(su, keys)
  {
    hide Fails, Under, LabelKeys;
    assert BlockedAt(su, keys, []);
  }

  lemma NotBlocked(su: Setup, keys: seq<Key>)
    requires Sane(su) && !Fails(su, LabelKeys(keys))
    requires forall l :: FirstLabel(keys, l) ==> !BlockedBelow(su, keys, l)
    ensures !Blocked(su, keys)
  {
    hide Fails, Under, LabelKeys, FirstLabel;
    forall path
      ensures !BlockedAt(su, keys, path)
    {
      if path != [] {
        UnderFirst(keys, path[0]);
      }
    }
  }

  ghost predicate FirstLabel(keys: seq<Key>, l: string) {
    exists i :: 0 <= i < |keys| && First(keys[i].name) == l
  }

  lemma {:induction false} UnderFirst(keys: seq<Key>, l: string)
    ensures Under(keys, l) != [] ==> FirstLabel(keys, l)
  {
    hide First, HasDot, Rest;
    if keys != [] {
      var n := |keys| - 1;
      UnderFirst(keys[..n], l);
      if FirstLabel(keys[..n], l) {
        var i :| 0 <= i < n && First(keys[..n][i].name) == l;
        assert First(keys[i].name) == l;
      }
    }
  }

  // The names of a group, and no others, are below its label.
  lemma {:induction false} UnderGroup(keys: seq<Key>, n: nat, e: nat, l: string, j: nat)
    requires Group(keys, n, e) && l == First(keys[n].name) && j <= |keys|
    requires forall i :: (0 <= i < n || e <= i < |keys|) ==> First(keys[i].name) != l
    ensures Under(keys[..j], l) == if j <= n then [] else if j < e then Rests(keys, n, j) else Rests(keys, n, e)
    decreases j
  {
    hide First, HasDot, Rest;
    if j > 0 {
      UnderGroup(keys, n, e, l, j - 1);
      assert keys[..j][..j - 1] == keys[..j - 1] && keys[..j][j - 1] == keys[j - 1];
      if n < j <= e {
        assert First(keys[j - 1].name) == l;
      }
    }
  }

  lemma {:induction false} GroupLabels(keys: seq<Key>, n: nat, e: nat, l: string, j: nat)
    requires Group(keys, n, e) && l == First(keys[n].name) && n < j <= e
    requires n > 0 ==> First(keys[n - 1].name) != l
    ensures LabelKeys(keys[..j]) == LabelKeys(keys[..n]) + [PackedHash.Key(l, PackedHash.HashKey(l), 0)]
    decreases j
  {
    hide First, PackedHash.HashKey;
    assert keys[..j][..j - 1] == keys[..j - 1] && keys[..j][j - 1] == keys[j - 1];
    if j > n + 1 {
      GroupLabels(keys, n, e, l, j - 1);
      assert keys[..j][j - 2] == keys[j - 2];
    } else if n > 0 {
      assert keys[..j][n - 1] == keys[n - 1];
    }
  }

  // The labels so far, and nothing blocked below them
  ghost predicate Going(su: Setup, keys: seq<Key>, cur: seq<PackedHash.Key>, hash: map<string, Tagged>, n: nat)
    requires Sane(su) && n <= |keys|
  {
    Blank(cur) == LabelKeys(keys[..n]) && forall l :: l in hash ==> !BlockedBelow(su, keys, l)
  }

  lemma GoingStart(su: Setup, keys: seq<Key>)
    requires Sane(su)
    ensures Going(su, keys, [], map[], 0)
  {
  }

  lemma GoingOn(su: Setup, keys: seq<Key>, cur: seq<PackedHash.Key>, hash: map<string, Tagged>, n: nat, e: nat,
                k: PackedHash.Key, t: Tagged)
    requires Sane(su) && n < e <= |keys| && Going(su, keys, cur, hash, n) && Group(keys, n, e)
    requires k.Key? && k.name == First(keys[n].name) && k.hash == PackedHash.HashKey(k.name)
    requires n > 0 ==> First(keys[n - 1].name) != k.name
    requires !BlockedBelow(su, keys, k.name)
    ensures Going(su, keys, cur + [k], hash[k.name := t], e)
  {
    hide First, PackedHash.HashKey, Blank, LabelKeys, BlockedBelow;
    GroupLabels(keys, n, e, k.name, e);
    BlankMore(cur, k);
  }

  lemma GoingDone(su: Setup, keys: seq<Key>, cur: seq<PackedHash.Key>, hash: map<string, Tagged>, m: Names, bound: nat)
    requires Sane(su) && Going(su, keys, cur, hash, |keys|) && TableOf(keys, hash, m, bound, |keys|)
    ensures Blocked(su, keys) <==> Fails(su, cur)
  {
    hide First, Fails, Blank, LabelKeys, BlockedBelow, Blocked, RepAt;
    assert keys[..|keys|] == keys;
    BlankFails(su, cur);
    if Fails(su, cur) {
      BlockedHere(su, keys);
    } else {
      NotBlocked(su, keys);
    }
  }

  // What is below the label of a group is what has been collected.
  lemma GroupBelow(su: Setup, keys: seq<Key>, n: nat, e: nat, hash: map<string, Tagged>, m: Names, bound: nat)
    requires Sane(su) && Group(keys, n, e) && TableOf(keys, hash, m, bound, n)
    requires forall j :: e <= j < |keys| ==> First(keys[j].name) != First(keys[n].name)
    ensures
      var l, below := First(keys[n].name), Rests(keys, n, e);
      && (n > 0 ==> First(keys[n - 1].name) != l)
      && (BlockedBelow(su, keys, l) <==> below != [] && Blocked(su, below))
  {
    hide First, Blocked, RepAt, Rests, Under;
    var l := First(keys[n].name);
    UnderGroup(keys, n, e, l, |keys|);
    assert keys[..|keys|] == keys;
  }

  // -------- the tables --------

  // ngx_hash_wildcard_init: the labels of the names go into a packed hash, each with a value or
  // the tagged address of the table of what is below it.
  method WildcardInit(su: Setup, keys: seq<Key>, ts0: Tables, next0: nat, ghost ns0: Lists, ghost bound: nat)
      returns (made: bool, a: nat, ts: Tables, next: nat, ghost ns: Lists, ghost wc: Wc)
    requires Sane(su) && Sorted(keys) && AllClean(keys) && Storable(keys)
    requires Good(MapOf(keys)) && AllWithin(MapOf(keys), bound) && Below(ts0, ns0, next0)
    ensures Below(ts, ns, next) && next0 <= next && Same(ts0, ns0, ts, ns, next0)
    ensures made ==> next0 <= a && Packs(ts, ns, su, a, wc, bound)
                     && Rep(wc, MapOf(keys), bound) && wc.value == 0
    ensures made <==> !Blocked(su, keys)
    decreases bound, 1
  {
    hide First, HasDot, Rest, Named, Clean, Less, MapOf, Sorted, Good, AllClean, Rep, RepAt, AllWithin, Sub, Sane,
         Packs, PacksAt, Labels, LabelAt, Storable, Blocked, BlockedBelow, Going, Fails, Filled, PackedHash.HashKey,
         PackedHash.Lower, PackedHash.Proper, Rests, SameGroup, Below, BaseValue;
    ghost var m := MapOf(keys);
    made, a, ts, next, ns, wc := false, 0, ts0, next0, ns0, Wc(map[], 0);
    ghost var hash: map<string, Tagged> := map[];
    var cur: seq<PackedHash.Key> := [];
    NoLabels(ts, ns, su, next, bound);
    NoTable(keys, m, bound);
    GoingStart(su, keys);
    var n := 0;
    while n < |keys|
      invariant n <= |keys| && TableOf(keys, hash, m, bound, n)
      invariant Below(ts, ns, next) && next0 <= next && Same(ts0, ns0, ts, ns, next0)
      invariant Labels(ts, ns, su, next, cur, hash, bound) && Going(su, keys, cur, hash, n)
    {
      var e;
      var below: seq<Key>;
      below, e := Collect(keys, n);
      var first := keys[n];
      var l := First(first.name);
      GroupEnds(keys, m, n, e);
      GroupSub(keys, hash, m, bound, n, e, below);
      BaseFirst(keys, m, n, e);
      StorableRests(keys, n, e);
      NewLabel(keys, hash, m, bound, n);
      ghost var tagged, ts1, ns1, next1 := Data(0, false), ts, ns, next;
      var k;
      made, k, ts, next, ns, tagged := Entry(su, l, first, below, ts, next, ns, m, bound);
      GroupBelow(su, keys, n, e, hash, m, bound);
      if !made {
        BlockedThere(su, keys, l);
        return;
      }
      GoingOn(su, keys, cur, hash, n, e, k, tagged);
      LabelIs(ts, ns, su, next, k, hash, tagged, bound);
      LabelsMore(ts1, ns1, ts, ns, su, next1, next, cur, k, hash, tagged, bound);
      cur := cur + [k];
      TableNext(keys, hash, m, bound, n, e, tagged);
      hash := hash[l := tagged];
      n := e;
    }
    TableDone(keys, hash, m, bound);
    LabelsProper(ts, ns, su, next, cur, hash, bound);
    var h;
    made, h := Build(su, cur);
    GoingDone(su, keys, cur, hash, m, bound);
    if !made {
      return;
    }
    Placed(ts, ns, su, next, cur, hash, bound, h);
    a, wc := next, Wc(hash, 0);
    ts, ns := ts[next := Node(h, 0)], ns[next := cur];
    next := next + 4;
  }

  // The hash entry of a label: the value, or the tagged address of the table of what is below.
  method Entry(su: Setup, l: string, first: Key, below: seq<Key>, ts0: Tables, next0: nat, ghost ns0: Lists,
               ghost m: Names, ghost bound: nat)
      returns (made: bool, k: PackedHash.Key, ts: Tables, next: nat, ghost ns: Lists, ghost tagged: Tagged)
    requires Sane(su) && Below(ts0, ns0, next0) && PackedHash.Lower(l) == l && first.value != 0 && first.value % 4 == 0
    requires Sorted(below) && AllClean(below) && Storable(below) && MapOf(below) == Sub(m, l) && Good(MapOf(below))
    requires if below == [] then Sub(m, l) == map[]
             else bound > 0 && AllWithin(MapOf(below), bound - 1) && Sub(m, l) != map[]
    requires (l in m <==> first.name == l) && (l + "." in m <==> first.name == l + ".")
    requires BaseValue(m, l) == (if first.name == l || first.name == l + "." then first.value else 0)
    requires (first.name == l <==> !HasDot(first.name)) && (below == [] ==> first.name == l || first.name == l + ".")
    ensures Below(ts, ns, next) && next0 <= next && Same(ts0, ns0, ts, ns, next0)
    ensures made ==> k.Key? && k.name == l && k.hash == PackedHash.HashKey(l) && k.value != 0
                     && PacksAt(ts, ns, su, next, k.value, tagged, bound) && RepAt(tagged, m, l, bound)
    ensures made <==> below == [] || !Blocked(su, below)
    decreases bound, 0
  {
    hide First, HasDot, Rest, Named, Clean, Less, MapOf, Sorted, Good, AllClean, Rep, RepAt, AllWithin, Sub, Sane,
         Packs, PacksAt, Storable, Blocked, Filled, PackedHash.HashKey, PackedHash.Lower;
    made, ts, next, ns, tagged := true, ts0, next0, ns0, Data(0, false);
    var dot := HasDot(first.name);
    var value: nat := first.value;
    if below != [] {
      var sub: nat;
      ghost var w: Wc;
      made, sub, ts, next, ns, w := WildcardInit(su, below, ts, next, ns, bound - 1);
      if !made {
        k := PackedHash.Skip;
        return;
      }
      StandsThere(ts, ns, su, sub, w, bound - 1, next);
      if first.name == (if dot then l + "." else l) {
        RepValue(w, MapOf(below), bound - 1, first.value);
        ValueSet(ts, ns, su, sub, w, bound - 1, first.value);
        ts := ts[sub := ts[sub].(value := first.value)];
        w := w.(value := first.value);
      }
      value := sub + (if dot then 3 else 2);
      tagged := Table(w, dot);
      TableRep(m, l, bound, w, MapOf(below), dot);
      TableAt(ts, ns, su, sub, w, bound, next, dot);
    } else {
      value := value + (if dot then 1 else 0);
      tagged := Data(first.value, dot);
      DataRep(m, l, bound, first.value, dot);
      DataAt(ts, ns, su, next, first.value, bound, dot);
    }
    k := PackedHash.Key(l, PackedHash.HashKey(PackedHash.Lower(l)), value);
  }

  lemma NoLabels(ts: Tables, ns: Lists, su: Setup, next: nat, bound: nat)
    ensures Labels(ts, ns, su, next, [], map[], bound)
  {
  }

  lemma NoTable(keys: seq<Key>, m: Names, bound: nat)
    ensures TableOf(keys, map[], m, bound, 0)
  {
  }

  lemma NewLabel(keys: seq<Key>, hash: map<string, Tagged>, m: Names, bound: nat, n: nat)
    requires TableOf(keys, hash, m, bound, n) && n < |keys| && Storable(keys)
    ensures First(keys[n].name) !in hash
    ensures PackedHash.Lower(First(keys[n].name)) == First(keys[n].name)
    ensures keys[n].value != 0 && keys[n].value % 4 == 0
  {
    hide First, RepAt, PackedHash.Lower;
    LowFirst(keys[n].name);
  }

  lemma LowFirst(s: string)
    requires PackedHash.Lower(s) == s
    ensures PackedHash.Lower(First(s)) == First(s) && (HasDot(s) ==> PackedHash.Lower(Rest(s)) == Rest(s))
  {
    Parted(s);
    var n := |First(s)|;
    forall i | 0 <= i < |s|
      ensures PackedHash.ToLower(s[i]) == s[i]
    {
      assert PackedHash.Lower(s)[i] == PackedHash.ToLower(s[i]);
    }
    assert forall i :: 0 <= i < n ==> First(s)[i] == s[i];
    if HasDot(s) {
      assert forall i :: 0 <= i < |Rest(s)| ==> Rest(s)[i] == s[n + 1 + i];
    }
  }

  lemma {:induction false} StorableRests(keys: seq<Key>, n: nat, e: nat)
    requires Storable(keys) && n < e <= |keys|
    ensures Storable(Rests(keys, n, e))
    decreases e
  {
    hide First, HasDot, Rest, PackedHash.Lower;
    LowFirst(keys[e - 1].name);
    if e > n + 1 {
      StorableRests(keys, n, e - 1);
    }
  }

  lemma StandsThere(ts: Tables, ns: Lists, su: Setup, a: nat, wc: Wc, n: nat, next: nat)
    requires Packs(ts, ns, su, a, wc, n) && Below(ts, ns, next)
    ensures a in ts && a in ns && a % 4 == 0 && a < next
  {
    hide PacksAt, Filled;
  }

  lemma TableAt(ts: Tables, ns: Lists, su: Setup, a: nat, w: Wc, bound: nat, next: nat, dot: bool)
    requires 0 < bound && Packs(ts, ns, su, a, w, bound - 1) && a % 4 == 0 && a < next
    ensures PacksAt(ts, ns, su, next, a + (if dot then 3 else 2), Table(w, dot), bound)
  {
    hide Packs;
    var v := a + (if dot then 3 else 2);
    assert v - v % 4 == a;
  }

  lemma DataAt(ts: Tables, ns: Lists, su: Setup, next: nat, v: nat, bound: nat, dot: bool)
    requires v != 0 && v % 4 == 0
    ensures PacksAt(ts, ns, su, next, v + (if dot then 1 else 0), Data(v, dot), bound)
  {
  }

  lemma LabelIs(ts: Tables, ns: Lists, su: Setup, next: nat, k: PackedHash.Key, hash: map<string, Tagged>, t: Tagged,
                bound: nat)
    requires k.Key? && PackedHash.Lower(k.name) == k.name && k.hash == PackedHash.HashKey(k.name)
    requires k.value != 0 && PacksAt(ts, ns, su, next, k.value, t, bound)
    ensures LabelAt(ts, ns, su, next, k, hash[k.name := t], bound)
  {
    hide PacksAt, PackedHash.Lower, PackedHash.HashKey;
  }

  // The names below the first label of the group that starts at n, and where it ends.
  method Collect(keys: seq<Key>, n: nat) returns (next: seq<Key>, e: nat)
    requires n < |keys| && Sorted(keys) && Good(MapOf(keys))
    ensures n < e <= |keys| && (forall i :: n < i < e ==> SameGroup(keys[n].name, keys[i].name))
    ensures e < |keys| ==> !SameGroup(keys[n].name, keys[e].name)
    ensures next == Rests(keys, n, e)
  {
    hide First, HasDot, Rest, Named, Clean, Less, MapOf, Sorted, Good;
    var first := keys[n].name;
    next := [];
    if HasDot(first) && Rest(first) != "" {
      next := [Key(Rest(first), keys[n].value)];
    }
    e := n + 1;
    while e < |keys| && SameGroup(first, keys[e].name)
      invariant n < e <= |keys| && forall i :: n < i < e ==> SameGroup(first, keys[i].name)
      invariant next == Rests(keys, n, e)
    {
      SameGroupLabel(first, keys[e].name);
      LaterNames(keys, MapOf(keys), n, e);
      var dotLen := |First(first)| + 1;
      assert keys[e].name[dotLen..] == Rest(keys[e].name);
      next := next + [Key(keys[e].name[dotLen..], keys[e].value)];
      e := e + 1;
    }
  }
}
