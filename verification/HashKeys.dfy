// From patterns to answers: ngx_hash_add_key collects names and wildcards, the wildcard names
// are sorted and built into tables, and a lookup answers for the patterns.

module HashKeys {
  import opened DomainNames
  import opened Options
  import opened WildcardTrie
  import opened WildcardHash
  import opened WildcardFind
  import opened PackedTrie
  import PackedHash

  // -------- patterns --------

  datatype Kind = Exact | Head | Tail | Refused

  function Stars(p: string): nat {
    if p == [] then 0 else Stars(p[..|p| - 1]) + if p[|p| - 1] == '*' then 1 else 0
  }

  predicate TwoDots(p: string, i: nat) {
    i + 1 < |p| && p[i] == '.' && p[i + 1] == '.'
  }

  // No two dots in a row, at most one star and no NUL
  ghost predicate Sensible(p: string) {
    Stars(p) <= 1 && (forall i :: 0 <= i < |p| ==> !TwoDots(p, i) && p[i] != '\0')
  }

  function Shape(p: string): Kind {
    if |p| > 1 && p[0] == '.' then Head
    else if |p| > 2 && p[0] == '*' && p[1] == '.' then Head
    else if |p| > 2 && p[|p| - 2] == '.' && p[|p| - 1] == '*' then Tail
    else if Stars(p) > 0 then Refused
    else Exact
  }

  ghost function KindOf(p: string): Kind {
    if Sensible(p) then Shape(p) else Refused
  }

  // The names in the three tables of conflicts, if any
  function ExactName(p: string): Option<string> {
    match Shape(p)
    case Exact => Some(p)
    case Head => if p[0] == '.' then Some(p[1..]) else None
    case _ => None
  }

  function HeadName(p: string): string {
    if |p| < 2 then "" else if p[0] == '.' then p[1..] else p[2..]
  }

  // -------- ngx_hash_add_key --------

  datatype Status = Ok | Busy | Declined

  // The arrays of names, and the tables of conflicts as sets.
  datatype Arrays = Arrays(exactNames: set<string>, headNames: set<string>, tailNames: set<string>,
                           keys: seq<PackedHash.Key>, heads: seq<Key>, tails: seq<Key>)

  function NoNames(): Arrays {
    Arrays({}, {}, {}, [], [], [])
  }

  ghost predicate Conflicts(ha: Arrays, p: string) {
    || (ExactName(p).Some? && ExactName(p).value in ha.exactNames)
    || (Shape(p) == Head && HeadName(p) in ha.headNames)
    || (Shape(p) == Tail && p[..|p| - 1] in ha.tailNames)
  }

  function ExactKey(p: string, value: nat): PackedHash.Key {
    PackedHash.Key(p, PackedHash.HashKey(p), value)
  }

  // The arrays with one more pattern. The key of a wildcard comes from HeadKey.
  function Added(ha: Arrays, p: string, value: nat): Arrays
    requires Shape(p) != Refused
  {
    match Shape(p)
    case Exact => ha.(exactNames := ha.exactNames + {p}, keys := ha.keys + [ExactKey(p, value)])
    case Head =>
      ha.(exactNames := ha.exactNames + (if p[0] == '.' then {p[1..]} else {}),
          headNames := ha.headNames + {HeadName(p)}, heads := ha.heads + [Key(RevLabels(p[1..]), value)])
    case Tail => ha.(tailNames := ha.tailNames + {p[..|p| - 1]}, tails := ha.tails + [Key(p[..|p| - 2], value)])
  }

  method CheckPattern(p: string) returns (ok: bool, stars: nat)
    ensures ok <==> Sensible(p)
    ensures ok ==> stars == Stars(p)
  {
    var i := 0;
    stars := 0;
    while i < |p|
      invariant i <= |p| && stars == Stars(p[..i]) <= 1
      invariant forall j :: 0 <= j < i ==> !TwoDots(p, j) && p[j] != '\0'
    {
      assert p[..i + 1][..i] == p[..i];
      if p[i] == '*' {
        stars := stars + 1;
        if stars > 1 {
          MoreStars(p, i + 1);
          return false, stars;
        }
      }
      if TwoDots(p, i) || p[i] == '\0' {
        return false, stars;
      }
      i := i + 1;
    }
    assert p[..i] == p;
    ok := true;
  }

  lemma {:induction false} MoreStars(p: string, i: nat)
    requires i <= |p|
    ensures Stars(p[..i]) <= Stars(p)
    decreases |p|
  {
    if i < |p| {
      assert p[..|p| - 1][..i] == p[..i];
      MoreStars(p[..|p| - 1], i);
    } else {
      assert p[..i] == p;
    }
  }

  // What a pattern that is refused as busy leaves in the table of exact names: ".example.com"
  // leaves "example.com".
  function LeftBehind(p: string): set<string> {
    if |p| > 1 && p[0] == '.' then {p[1..]} else {}
  }

  // The pattern goes in as it is written, and is kept in lower case, which is p.
  method AddKey(ha0: Arrays, pattern: string, value: nat, ghost p: string) returns (r: Status, ha: Arrays)
    requires PackedHash.Lowers(pattern, p)
    ensures r == Declined <==> KindOf(pattern) == Refused
    ensures r == Declined ==> ha == ha0
    ensures r == Busy <==> KindOf(pattern) != Refused && Conflicts(ha0, p)
    ensures r == Ok ==> Shape(p) != Refused && ha == Added(ha0, p, value)
    ensures r == Busy ==> ha == ha0.(exactNames := ha0.exactNames + LeftBehind(p))
    ensures forall n :: n in ha.exactNames ==> n in ha0.exactNames || ExactName(p) == Some(n)
  {
    hide RevLabels, PackedHash.HashKey, PackedHash.Lower, PackedHash.Lowers;
    ha := ha0;
    var ok, n := CheckPattern(pattern);
    LowPattern(pattern);
    PackedHash.LowersIs(pattern, p);
    var low := PackedHash.Lower(pattern);
    if !ok {
      return Declined, ha;
    }
    if |low| > 1 && low[0] == '.' {
      r, ha := AddHead(ha0, low, value);
      return;
    }
    if |low| > 2 {
      if low[0] == '*' && low[1] == '.' {
        r, ha := AddHead(ha0, low, value);
        return;
      }
      if low[|low| - 2] == '.' && low[|low| - 1] == '*' {
        if low[..|low| - 1] in ha.tailNames {
          return Busy, ha;
        }
        ha := ha.(tailNames := ha.tailNames + {low[..|low| - 1]}, tails := ha.tails + [Key(low[..|low| - 2], value)]);
        return Ok, ha;
      }
    }
    if n > 0 {
      return Declined, ha;
    }
    if low in ha.exactNames {
      return Busy, ha;
    }
    ha := ha.(exactNames := ha.exactNames + {low}, keys := ha.keys + [ExactKey(low, value)]);
    r := Ok;
  }

  method AddHead(ha0: Arrays, p: string, value: nat) returns (r: Status, ha: Arrays)
    requires Shape(p) == Head && Sensible(p)
    ensures r == if Conflicts(ha0, p) then Busy else Ok
    ensures r == Ok ==> ha == Added(ha0, p, value)
    ensures r == Busy ==> ha == ha0.(exactNames := ha0.exactNames + LeftBehind(p))
    ensures forall n :: n in ha.exactNames ==> n in ha0.exactNames || ExactName(p) == Some(n)
  {
    hide RevLabels;
    ha := ha0;
    var skip := if p[0] == '.' then 1 else 2;
    if skip == 1 {
      if p[1..] in ha.exactNames {
        return Busy, ha;
      }
      ha := ha.(exactNames := ha.exactNames + {p[1..]});
    }
    SensibleHead(p);
    var k := HeadKey(p);
    if p[skip..] in ha.headNames {
      return Busy, ha;
    }
    ha := ha.(headNames := ha.headNames + {p[skip..]}, heads := ha.heads + [Key(k, value)]);
    r := Ok;
  }

  // -------- lower case --------

  ghost predicate Low(p: string) {
    PackedHash.Lower(p) == p
  }

  lemma LowAt(p: string)
    ensures Low(p) <==> forall i :: 0 <= i < |p| ==> PackedHash.ToLower(p[i]) == p[i]
    ensures Low(PackedHash.Lower(p))
  {
    assert forall i :: 0 <= i < |p| ==> PackedHash.Lower(p)[i] == PackedHash.ToLower(p[i]);
    if Low(p) {
      assert forall i :: 0 <= i < |p| ==> PackedHash.Lower(p)[i] == p[i];
    }
  }

  // A pattern in lower case is of the same kind.
  lemma LowPattern(p: string)
    ensures
      var q := PackedHash.Lower(p);
      Low(q) && Stars(q) == Stars(p) && Sensible(q) == Sensible(p) && Shape(q) == Shape(p) && KindOf(q) == KindOf(p)
  {
    hide Stars;
    LowAt(p);
    LowStars(p);
    var q := PackedHash.Lower(p);
    assert forall i :: 0 <= i < |p| ==>
      (q[i] == '.' <==> p[i] == '.') && (q[i] == '*' <==> p[i] == '*') && (q[i] == '\0' <==> p[i] == '\0');
    assert forall i :: 0 <= i < |p| ==> TwoDots(q, i) == TwoDots(p, i);
  }

  lemma {:induction false} LowStars(p: string)
    ensures Stars(PackedHash.Lower(p)) == Stars(p)
    decreases |p|
  {
    if p != [] {
      var q, n := PackedHash.Lower(p), |p| - 1;
      assert q[..n] == PackedHash.Lower(p[..n]);
      LowStars(p[..n]);
    }
  }

  lemma LowJoin(a: string, b: string)
    requires Low(a) && Low(b)
    ensures Low(a + b)
  {
    hide PackedHash.Lower;
    LowAt(a);
    LowAt(b);
    LowAt(a + b);
  }

  lemma LowPart(a: string, i: nat, j: nat)
    requires Low(a) && i <= j <= |a|
    ensures Low(a[i..j])
  {
    hide PackedHash.Lower;
    LowAt(a);
    LowAt(a[i..j]);
  }

  lemma {:induction false} LowRev(d: string)
    requires Low(d)
    ensures Low(RevLabels(d))
    decreases |d|
  {
    hide PackedHash.Lower;
    Parted(d);
    LowFirst(d);
    if HasDot(d) {
      LowRev(Rest(d));
      LowAt(".");
      LowJoin(RevLabels(Rest(d)), ".");
      LowJoin(RevLabels(Rest(d)) + ".", First(d));
    }
  }

  lemma SensibleHead(p: string)
    requires Shape(p) == Head && Sensible(p)
    ensures HeadPattern(p)
  {
    assert !TwoDots(p, 0);
  }

  // -------- what has been collected --------

  // Characters above the space, and no dot at the end
  ghost predicate WellFormed(p: string) {
    p != "" && Clean(p) && p[|p| - 1] != '.'
  }

  ghost predicate GoodHead(p: string) {
    KindOf(p) == Head && WellFormed(p) && Low(p)
  }

  ghost predicate GoodTail(p: string) {
    KindOf(p) == Tail && WellFormed(p) && Low(p)
  }

  // A pointer whose two low bits are free
  ghost predicate Pointer(v: nat) {
    v != 0 && v % 4 == 0
  }

  function HeadKeyOf(p: string, v: nat): Key {
    Key(RevLabels(if p == "" then "" else p[1..]), v)
  }

  function TailKeyOf(p: string, v: nat): Key {
    Key(if |p| < 2 then "" else p[..|p| - 2], v)
  }

  ghost predicate DistinctNames(keys: seq<Key>) {
    forall i, j :: 0 <= i < j < |keys| ==> keys[i].name != keys[j].name
  }

  // The collected keys are those of the patterns.
  ghost predicate KeysOf(keys: seq<Key>, names: set<string>, ps: map<string, nat>, head: bool) {
    && (forall p :: p in ps ==> (if head then GoodHead(p) else GoodTail(p)) && Pointer(ps[p])
                                && NameOf(p, head) in names && KeyOf(p, ps[p], head) in keys)
    && (forall x :: x in keys ==> exists p :: p in ps && x == KeyOf(p, ps[p], head))
    && (forall n :: n in names ==> exists p :: p in ps && NameOf(p, head) == n)
    && (forall p, q :: p in ps && q in ps && p != q ==> NameOf(p, head) != NameOf(q, head))
    && DistinctNames(keys)
  }

  function NameOf(p: string, head: bool): string {
    if head then HeadName(p) else if p == "" then "" else p[..|p| - 1]
  }

  function KeyOf(p: string, v: nat, head: bool): Key {
    if head then HeadKeyOf(p, v) else TailKeyOf(p, v)
  }

  // The keys of the exact names are those of this map.
  ghost predicate ExactOf(keys: seq<PackedHash.Key>, names: set<string>, exact: map<string, nat>) {
    && (forall i :: 0 <= i < |keys| ==> ExactAt(keys[i], exact))
    && (forall n :: n in exact ==> n in names && exists i :: 0 <= i < |keys| && keys[i].Key? && keys[i].name == n)
    && forall i, j :: 0 <= i < j < |keys| && keys[i].Key? && keys[j].Key? ==> keys[i].name != keys[j].name
  }

  ghost predicate ExactAt(k: PackedHash.Key, exact: map<string, nat>) {
    && k.Key? && k == ExactKey(k.name, k.value) && Low(k.name)
    && k.name in exact && exact[k.name] == k.value && Pointer(k.value)
  }

  ghost predicate Collected(ha: Arrays, exact: map<string, nat>, heads: map<string, nat>, tails: map<string, nat>) {
    && ExactOf(ha.keys, ha.exactNames, exact)
    && KeysOf(ha.heads, ha.headNames, heads, true) && KeysOf(ha.tails, ha.tailNames, tails, false)
  }

  // -------- labels --------

  // Labels that are not empty, with dots between them
  ghost predicate Tidy(d: string) {
    d != "" && d[0] != '.' && d[|d| - 1] != '.' && forall i :: 0 <= i < |d| ==> !TwoDots(d, i)
  }

  lemma TidyRest(d: string)
    requires Tidy(d) && HasDot(d)
    ensures Tidy(Rest(d)) && First(d) != "" && d == First(d) + "." + Rest(d)
  {
    Parted(d);
    var n := DotAt(d);
    assert !TwoDots(d, n);
    forall i | 0 <= i < |Rest(d)|
      ensures !TwoDots(Rest(d), i)
    {
      assert !TwoDots(d, n + 1 + i);
    }
  }

  lemma {:induction false} NamedTidy(d: string)
    requires Tidy(d)
    ensures Named(d)
    decreases |d|
  {
    if HasDot(d) {
      TidyRest(d);
      NamedTidy(Rest(d));
    }
  }

  lemma {:induction false} NamedDot(d: string)
    requires Tidy(d)
    ensures Named(d + ".")
    decreases |d|
  {
    Parted(d);
    if HasDot(d) {
      TidyRest(d);
      NamedDot(Rest(d));
      assert d + "." == First(d) + "." + (Rest(d) + ".");
      Joined(First(d), Rest(d) + ".");
    } else {
      assert d + "." == d + "." + "";
      Joined(d, "");
    }
  }

  lemma TidyJoin(a: string, l: string)
    requires Tidy(a) && l != "" && '.' !in l
    ensures Tidy(a + "." + l)
  {
    var s := a + "." + l;
    assert forall i :: 0 <= i < |l| ==> l[i] in l;
    forall i | 0 <= i < |s|
      ensures !TwoDots(s, i)
    {
      assert i < |a| ==> !TwoDots(a, i);
      assert s[|s| - 1] == l[|l| - 1];
    }
  }

  lemma {:induction false} TidyRev(d: string)
    requires Tidy(d)
    ensures Tidy(RevLabels(d))
    decreases |d|
  {
    if HasDot(d) {
      Parted(d);
      TidyRest(d);
      TidyRev(Rest(d));
      TidyJoin(RevLabels(Rest(d)), First(d));
    }
  }

  lemma CleanJoin(a: string, l: string)
    requires Clean(a) && Clean(l)
    ensures Clean(a + "." + l)
  {
  }

  lemma CleanParts(d: string)
    requires Clean(d)
    ensures Clean(First(d)) && (HasDot(d) ==> Clean(Rest(d)))
  {
    if HasDot(d) {
      var r := Rest(d);
      assert forall i :: 0 <= i < |r| ==> r[i] == d[DotAt(d) + 1 + i];
    }
  }

  lemma {:induction false} CleanRev(d: string)
    requires Clean(d)
    ensures Clean(RevLabels(d))
    decreases |d|
  {
    hide Clean;
    Parted(d);
    CleanParts(d);
    if HasDot(d) {
      CleanRev(Rest(d));
      CleanJoin(RevLabels(Rest(d)), First(d));
    }
  }

  lemma HeadTidy(p: string)
    requires GoodHead(p)
    ensures Tidy(HeadName(p)) && Clean(HeadName(p)) && HeadPattern(p)
  {
    var d := HeadName(p);
    SensibleHead(p);
    assert !TwoDots(p, 0) && !TwoDots(p, 1);
    var k := |p| - |d|;
    forall i | 0 <= i < |d|
      ensures !TwoDots(d, i) && d[i] > ' '
    {
      assert !TwoDots(p, k + i) && d[i] == p[k + i];
    }
  }

  // The key of a leading wildcard is its domain turned round, with a dot or without.
  lemma HeadKeyForm(p: string)
    requires GoodHead(p)
    ensures Tidy(HeadName(p)) && HeadPattern(p)
    ensures RevLabels(p[1..]) == RevLabels(HeadName(p)) + (if p[0] == '.' then "" else ".")
    ensures Named(RevLabels(p[1..])) && Clean(RevLabels(p[1..])) && Low(RevLabels(p[1..]))
  {
    hide RevLabels, Tidy, Named, Clean, KindOf, WellFormed, PackedHash.Lower;
    var d := HeadName(p);
    HeadTidy(p);
    LowPart(p, 1, |p|);
    assert p[1..|p|] == p[1..];
    LowRev(p[1..]);
    TidyRev(d);
    CleanRev(d);
    if p[0] == '.' {
      NamedTidy(RevLabels(d));
    } else {
      assert p[1..] == "" + "." + d;
      RevOf("", d);
      assert RevLabels(d) + "." + "" == RevLabels(d) + ".";
      NamedDot(RevLabels(d));
      CleanDot(RevLabels(d));
    }
  }

  lemma CleanDot(d: string)
    requires Clean(d)
    ensures Clean(d + ".")
  {
  }

  lemma HeadsApart(p: string, q: string)
    requires GoodHead(p) && GoodHead(q) && HeadName(p) != HeadName(q)
    ensures RevLabels(p[1..]) != RevLabels(q[1..]) && RevLabels(p[1..]) + "." != RevLabels(q[1..])
  {
    hide RevLabels;
    HeadKeyForm(p);
    HeadKeyForm(q);
    var a, b := RevLabels(HeadName(p)), RevLabels(HeadName(q));
    SameRev(HeadName(p), HeadName(q));
    TidyRev(HeadName(p));
    TidyRev(HeadName(q));
    EndsApart(a, b);
  }

  lemma DotApart(a: string, b: string)
    ensures a + "." == b + "." <==> a == b
  {
    assert (a + ".")[..|a|] == a && (b + ".")[..|b|] == b;
  }

  lemma EndsApart(a: string, b: string)
    requires a != b && Tidy(a) && Tidy(b)
    ensures a + "." != b && a != b + "." && a + "." != b + "."
    ensures a + "." + "." != b && a + "." + "." != b + "."
  {
    assert (a + ".")[|a|] == '.' && (b + ".")[|b|] == '.' && (a + "." + ".")[|a| + 1] == '.';
    DotApart(a, b);
    DotApart(a + ".", b);
  }

  lemma TailKeyForm(p: string)
    requires GoodTail(p)
    ensures TailPattern(p) && Tidy(p[..|p| - 2]) && Named(p[..|p| - 2]) && Clean(p[..|p| - 2]) && Low(p[..|p| - 2])
    ensures p == p[..|p| - 2] + ".*" && NameOf(p, false) == p[..|p| - 2] + "."
  {
    hide Stars, PackedHash.Lower, Named, First, HasDot, Rest;
    var k := p[..|p| - 2];
    LowPart(p, 0, |p| - 2);
    assert p[0..|p| - 2] == k;
    assert !TwoDots(p, |p| - 3);
    forall i | 0 <= i < |k|
      ensures !TwoDots(k, i)
    {
      assert !TwoDots(p, i);
    }
    assert p == k + ".*" && p[|p| - 2..] == ".*";
    NamedTidy(k);
  }

  // -------- sorting --------

  ghost predicate Insertable(r: seq<Key>, k: Key, i: nat) {
    && i <= |r| && (forall j :: 0 <= j < i ==> Less(r[j].name, k.name))
    && (i < |r| ==> !Less(r[i].name, k.name))
  }

  lemma Inserted(r: seq<Key>, k: Key, i: nat)
    requires Sorted(r) && AllClean(r) && Clean(k.name) && Insertable(r, k, i)
    requires forall j :: 0 <= j < |r| ==> r[j].name != k.name
    ensures Sorted(r[..i] + [k] + r[i..]) && AllClean(r[..i] + [k] + r[i..])
  {
    hide Less, Clean;
    var s := r[..i] + [k] + r[i..];
    forall j | i <= j < |r|
      ensures Less(k.name, r[j].name)
    {
      LessTotal(r[i].name, k.name);
      if i < j {
        LessTransitive(k.name, r[i].name, r[j].name);
      }
    }
    forall a, b | 0 <= a < b < |s|
      ensures Less(s[a].name, s[b].name)
    {
      assert s[a] == if a < i then r[a] else if a == i then k else r[a - 1];
      assert s[b] == if b < i then r[b] else if b == i then k else r[b - 1];
    }
  }

  // Any sort gives this one order, as no two names are the same.
  method SortKeys(keys: seq<Key>) returns (r: seq<Key>)
    requires DistinctNames(keys) && AllClean(keys)
    ensures Sorted(r) && AllClean(r) && forall x :: x in r <==> x in keys
  {
    hide Less, Clean;
    r := [];
    var n := 0;
    while n < |keys|
      invariant n <= |keys| && Sorted(r) && AllClean(r) && forall x :: x in r <==> x in keys[..n]
    {
      var k := keys[n];
      var i := 0;
      while i < |r| && Less(r[i].name, k.name)
        invariant i <= |r| && forall j :: 0 <= j < i ==> Less(r[j].name, k.name)
      {
        i := i + 1;
      }
      forall j | 0 <= j < |r|
        ensures r[j].name != k.name
      {
        assert r[j] in keys[..n];
      }
      Inserted(r, k, i);
      InsertedMembers(r, k, i);
      assert keys[..n + 1] == keys[..n] + [k];
      r := r[..i] + [k] + r[i..];
      n := n + 1;
    }
    assert keys[..n] == keys;
  }

  lemma InsertedMembers(r: seq<Key>, k: Key, i: nat)
    requires i <= |r|
    ensures forall x :: x in r[..i] + [k] + r[i..] <==> x == k || x in r
  {
    assert r == r[..i] + r[i..];
  }

  ghost function Longest(keys: seq<Key>): nat {
    if keys == [] then 0
    else if |keys[0].name| > Longest(keys[1..]) then |keys[0].name| else Longest(keys[1..])
  }

  lemma {:induction false} LongestBounds(keys: seq<Key>)
    ensures forall x :: x in keys ==> |x.name| <= Longest(keys)
  {
    if keys != [] {
      LongestBounds(keys[1..]);
      assert keys == [keys[0]] + keys[1..];
    }
  }

  lemma Bounded(keys: seq<Key>)
    requires Sorted(keys)
    ensures AllWithin(MapOf(keys), Longest(keys))
  {
    hide Less, MapOf;
    MapOfHas(keys);
    LongestBounds(keys);
    forall k | k in MapOf(keys)
      ensures |k| <= Longest(keys)
    {
      var i :| 0 <= i < |keys| && keys[i].name == k;
      assert keys[i] in keys;
    }
  }

  // -------- the tables --------

  lemma KeysClean(keys: seq<Key>, names: set<string>, ps: map<string, nat>, head: bool)
    requires KeysOf(keys, names, ps, head)
    ensures AllClean(keys) && Storable(keys)
  {
    hide RevLabels, Clean, Named, Tidy, PackedHash.Lower, GoodHead, GoodTail;
    forall i | 0 <= i < |keys|
      ensures Clean(keys[i].name) && Low(keys[i].name) && Pointer(keys[i].value)
    {
      assert keys[i] in keys;
      var p :| p in ps && keys[i] == KeyOf(p, ps[p], head);
      if head {
        HeadKeyForm(p);
      } else {
        TailKeyForm(p);
      }
    }
  }

  ghost predicate Apart(ps: map<string, nat>, head: bool) {
    && (forall p :: p in ps ==> (if head then GoodHead(p) else GoodTail(p)) && Pointer(ps[p]))
    && (forall p, q :: p in ps && q in ps && p != q ==> NameOf(p, head) != NameOf(q, head))
  }

  // The table's names are the keys of the patterns.
  ghost predicate Named0(ps: map<string, nat>, m: Names, k: string, head: bool) {
    exists p :: p in ps && KeyOf(p, ps[p], head).name == k && k in m && m[k] == ps[p]
  }

  ghost predicate Keyed(ps: map<string, nat>, m: Names, head: bool) {
    && (forall p :: p in ps ==> KeyOf(p, ps[p], head).name in m && m[KeyOf(p, ps[p], head).name] == ps[p])
    && forall k :: k in m ==> Named0(ps, m, k, head)
  }

  lemma MapMembers(sorted: seq<Key>)
    requires Sorted(sorted)
    ensures forall x :: x in sorted ==> x.name in MapOf(sorted) && MapOf(sorted)[x.name] == x.value
  {
    hide Less, MapOf;
    MapOfHas(sorted);
    forall x | x in sorted
      ensures x.name in MapOf(sorted) && MapOf(sorted)[x.name] == x.value
    {
      var i :| 0 <= i < |sorted| && sorted[i] == x;
    }
  }

  lemma MapMember(sorted: seq<Key>, k: string)
    requires Sorted(sorted) && k in MapOf(sorted)
    ensures Key(k, MapOf(sorted)[k]) in sorted
  {
    hide Less, MapOf;
    MapOfHas(sorted);
    var i :| 0 <= i < |sorted| && sorted[i].name == k;
    assert sorted[i] == Key(k, MapOf(sorted)[k]);
  }

  lemma KeysApart(keys: seq<Key>, names: set<string>, ps: map<string, nat>, head: bool)
    requires KeysOf(keys, names, ps, head)
    ensures Apart(ps, head)
  {
    hide KeyOf, NameOf, GoodHead, GoodTail;
  }

  lemma KeysMap(keys: seq<Key>, sorted: seq<Key>, names: set<string>, ps: map<string, nat>, head: bool)
    requires KeysOf(keys, names, ps, head) && Sorted(sorted) && forall x :: x in sorted <==> x in keys
    ensures Keyed(ps, MapOf(sorted), head)
  {
    hide Less, MapOf, KeyOf, NameOf, GoodHead, GoodTail, Sorted, DistinctNames;
    var m := MapOf(sorted);
    MapMembers(sorted);
    forall p | p in ps
      ensures KeyOf(p, ps[p], head).name in m && m[KeyOf(p, ps[p], head).name] == ps[p]
    {
      assert KeyOf(p, ps[p], head) in sorted;
      KeyValue(p, ps[p], head);
    }
    forall k | k in m
      ensures Named0(ps, m, k, head)
    {
      var x := Key(k, m[k]);
      MapMember(sorted, k);
      assert x in keys;
      var p :| p in ps && x == KeyOf(p, ps[p], head);
      KeyValue(p, ps[p], head);
    }
  }

  lemma KeyValue(p: string, v: nat, head: bool)
    ensures KeyOf(p, v, head).value == v
  {
  }

  lemma HeadsGood(ps: map<string, nat>, m: Names)
    requires Apart(ps, true) && Keyed(ps, m, true)
    ensures HeadsOf(ps, m) && Good(m)
  {
    hide RevLabels, Named, Clean, GoodHead, HeadName;
    forall p | p in ps
      ensures HeadPattern(p) && KeyOf(p, ps[p], true).name == RevLabels(p[1..])
      ensures Named(RevLabels(p[1..])) && Clean(RevLabels(p[1..]))
    {
      HeadKeyForm(p);
    }
    forall k | k in m
      ensures exists p :: p in ps && HeadPattern(p) && RevLabels(p[1..]) == k
      ensures Named(k) && Clean(k) && m[k] != 0 && !(k + "." in m)
    {
      assert Named0(ps, m, k, true);
      var p :| p in ps && KeyOf(p, ps[p], true).name == k && m[k] == ps[p];
      if k + "." in m {
        assert Named0(ps, m, k + ".", true);
        var q :| q in ps && KeyOf(q, ps[q], true).name == k + ".";
        HeadNotDotted(p, q);
      }
    }
  }

  lemma HeadNotDotted(p: string, q: string)
    requires GoodHead(p) && GoodHead(q) && (p != q ==> HeadName(p) != HeadName(q))
    ensures RevLabels(p[1..]) + "." != RevLabels(q[1..])
  {
    hide RevLabels;
    if p != q {
      HeadsApart(p, q);
    } else {
      assert |RevLabels(p[1..]) + "."| != |RevLabels(p[1..])|;
    }
  }

  lemma TailsGood(ps: map<string, nat>, m: Names)
    requires Apart(ps, false) && Keyed(ps, m, false)
    ensures TailsOf(ps, m) && Good(m) && Undotted(m)
  {
    hide Named, Clean, GoodTail, Dotted;
    forall p | p in ps
      ensures TailPattern(p) && KeyOf(p, ps[p], false).name == p[..|p| - 2] && p == p[..|p| - 2] + ".*"
      ensures Named(p[..|p| - 2]) && Clean(p[..|p| - 2]) && !Dotted(p[..|p| - 2])
    {
      TailKeyForm(p);
      TailNotDotted(p[..|p| - 2]);
    }
    forall k | k in m
      ensures k + ".*" in ps && m[k] == ps[k + ".*"]
      ensures Named(k) && Clean(k) && m[k] != 0 && !Dotted(k)
    {
      assert Named0(ps, m, k, false);
    }
    forall k | k in m
      ensures !(k + "." in m)
    {
      DottedEnd(k);
    }
  }

  lemma TailNotDotted(k: string)
    requires GoodTail(k + ".*")
    ensures Named(k) && Clean(k) && !Dotted(k)
  {
    var p := k + ".*";
    TailKeyForm(p);
    assert p[..|p| - 2] == k;
  }

  // A table from what has been collected, or 0 when nothing has been
  method Table(su: Setup, keys: seq<Key>, ts0: Tables, next0: nat, ghost ns0: Lists, ghost names: set<string>,
               ghost ps: map<string, nat>, ghost head: bool)
      returns (made: bool, a: nat, ts: Tables, next: nat, ghost ns: Lists, ghost side: Side)
    requires Sane(su) && KeysOf(keys, names, ps, head) && Below(ts0, ns0, next0)
    ensures Below(ts, ns, next) && next0 <= next && Same(ts0, ns0, ts, ns, next0)
    ensures made ==> SideIs(su, ts, ns, a, side, head) && side.patterns == ps && (a == 0 <==> keys == [])
    ensures made <==> keys == [] || !BlockedNames(su, keys)
  {
    hide KeysOf, Rep, Good, HeadsOf, TailsOf, Sorted, AllClean, Undotted, MapOf, Apart, Keyed, Storable, Blocked,
         BlockedNames, Sane, Packs, Below, Same, AllWithin, DistinctNames;
    made, a, ts, next, ns, side := true, 0, ts0, next0, ns0, Side(Wc(map[], 0), map[], 0, ps);
    if keys == [] {
      NoPatterns(keys, names, ps, head);
      SameTables(ts, ns, next);
      return;
    }
    KeysClean(keys, names, ps, head);
    KeysDistinct(keys, names, ps, head);
    var sorted := SortKeys(keys);
    StorableSorted(keys, sorted);
    KeysApart(keys, names, ps, head);
    KeysMap(keys, sorted, names, ps, head);
    ghost var m, bound := MapOf(sorted), Longest(sorted);
    if head {
      HeadsGood(ps, m);
    } else {
      TailsGood(ps, m);
    }
    Bounded(sorted);
    ghost var wc;
    made, a, ts, next, ns, wc := WildcardInit(su, sorted, ts0, next0, ns0, bound);
    BlockedSorted(su, sorted, keys);
    if made {
      side := Side(wc, m, bound, ps);
      TableThere(ts, ns, su, a, wc, bound);
    }
  }

  lemma SameTables(ts: Tables, ns: Lists, next: nat)
    ensures Same(ts, ns, ts, ns, next)
  {
  }

  lemma StorableSorted(keys: seq<Key>, sorted: seq<Key>)
    requires Storable(keys) && forall x :: x in sorted ==> x in keys
    ensures Storable(sorted)
  {
    hide PackedHash.Lower;
    forall i | 0 <= i < |sorted|
      ensures Low(sorted[i].name) && Pointer(sorted[i].value)
    {
      assert sorted[i] in keys;
    }
  }

  lemma TableThere(ts: Tables, ns: Lists, su: Setup, a: nat, wc: Wc, bound: nat)
    requires Packs(ts, ns, su, a, wc, bound)
    ensures a != 0
  {
    hide PacksAt, PackedTrie.Filled;
  }

  // The names in their order cannot be built into tables.
  ghost predicate BlockedNames(su: Setup, keys: seq<Key>)
    requires Sane(su)
  {
    exists sorted: seq<Key> :: Sorted(sorted) && (forall x :: x in sorted <==> x in keys) && Blocked(su, sorted)
  }

  lemma BlockedSorted(su: Setup, sorted: seq<Key>, keys: seq<Key>)
    requires Sane(su) && Sorted(sorted) && forall x :: x in sorted <==> x in keys
    ensures BlockedNames(su, keys) <==> Blocked(su, sorted)
  {
    hide Blocked, Sorted;
    if BlockedNames(su, keys) {
      var other: seq<Key> :| Sorted(other) && (forall x :: x in other <==> x in keys) && Blocked(su, other);
      OneOrder(sorted, other);
    }
  }

  // Names have one order only.
  lemma {:induction false} OneOrder(r: seq<Key>, s: seq<Key>)
    requires Sorted(r) && Sorted(s) && forall x :: x in r <==> x in s
    ensures r == s
  {
    hide Less;
    BothEmpty(r, s);
    if r != [] {
      FirstIsLeast(r, s);
      forall x
        ensures x in r[1..] <==> x in s[1..]
      {
        NotAgain(r, x);
        NotAgain(s, x);
      }
      OneOrder(r[1..], s[1..]);
      assert r == [r[0]] + r[1..] && s == [s[0]] + s[1..];
    }
  }

  lemma BothEmpty(r: seq<Key>, s: seq<Key>)
    requires forall x :: x in r <==> x in s
    ensures r == [] <==> s == []
  {
    if r != [] {
      assert r[0] in r;
    }
    if s != [] {
      assert s[0] in s;
    }
  }

  lemma FirstIsLeast(r: seq<Key>, s: seq<Key>)
    requires Sorted(r) && Sorted(s) && r != [] && s != [] && r[0] in s && s[0] in r
    ensures r[0] == s[0]
  {
    hide Less;
    var i :| 0 <= i < |s| && s[i] == r[0];
    var j :| 0 <= j < |r| && r[j] == s[0];
    if i > 0 {
      LessAntisymmetric(s[0].name, s[i].name);
    }
  }

  lemma NotAgain(r: seq<Key>, x: Key)
    requires Sorted(r) && r != []
    ensures x in r[1..] <==> x in r && x != r[0]
  {
    hide Less;
    assert r == [r[0]] + r[1..];
    if x in r[1..] {
      var i :| 0 <= i < |r| - 1 && r[1..][i] == x;
      LessAntisymmetric(r[0].name, r[i + 1].name);
    }
  }

  // Later tables leave the earlier ones alone.
  lemma SideStays(su: Setup, ts: Tables, ns: Lists, ts': Tables, ns': Lists, next: nat, a: nat, side: Side, head: bool)
    requires SideIs(su, ts, ns, a, side, head) && Below(ts, ns, next) && Same(ts, ns, ts', ns', next)
    ensures SideIs(su, ts', ns', a, side, head)
  {
    hide Packs, Rep, Good, HeadsOf, TailsOf, Undotted;
    if a != 0 {
      StandsThere(ts, ns, su, a, side.wc, side.bound, next);
      PacksFrame(ts, ns, ts', ns', su, a, side.wc, side.bound);
    }
  }

  lemma NoPatterns(keys: seq<Key>, names: set<string>, ps: map<string, nat>, head: bool)
    requires KeysOf(keys, names, ps, head)
    ensures keys == [] ==> ps == map[]
  {
    assert forall p :: p in ps ==> KeyOf(p, ps[p], head) in keys;
    assert ps.Keys != {} ==> exists p :: p in ps;
  }

  lemma KeysDistinct(keys: seq<Key>, names: set<string>, ps: map<string, nat>, head: bool)
    requires KeysOf(keys, names, ps, head)
    ensures DistinctNames(keys)
  {
  }

  // -------- one pattern more --------

  // The names in the table of conflicts tell the patterns apart, and with them their keys.
  lemma NamesApart(p: string, q: string, head: bool)
    requires if head then GoodHead(p) && GoodHead(q) else GoodTail(p) && GoodTail(q)
    requires NameOf(p, head) != NameOf(q, head)
    ensures forall v, w :: KeyOf(p, v, head).name != KeyOf(q, w, head).name
  {
    hide RevLabels;
    if head {
      HeadKeyForm(p);
      HeadKeyForm(q);
      HeadsApart(p, q);
    } else {
      TailKeyForm(p);
      TailKeyForm(q);
    }
  }

  lemma OneMore(keys: seq<Key>, names: set<string>, ps: map<string, nat>, head: bool, p: string, v: nat)
    requires KeysOf(keys, names, ps, head) && Pointer(v) && (if head then GoodHead(p) else GoodTail(p))
    requires NameOf(p, head) !in names
    ensures p !in ps && KeysOf(keys + [KeyOf(p, v, head)], names + {NameOf(p, head)}, ps[p := v], head)
  {
    hide KeyOf, NameOf, GoodHead, GoodTail;
    var k, ps' := KeyOf(p, v, head), ps[p := v];
    assert p !in ps;
    forall i | 0 <= i < |keys|
      ensures keys[i].name != k.name
    {
      assert keys[i] in keys;
      var q :| q in ps && keys[i] == KeyOf(q, ps[q], head);
      NamesApart(p, q, head);
    }
    forall x | x in keys + [k]
      ensures exists q :: q in ps' && x == KeyOf(q, ps'[q], head)
    {
      if x in keys {
        var q :| q in ps && x == KeyOf(q, ps[q], head);
        assert q in ps' && ps'[q] == ps[q];
      } else {
        assert p in ps' && x == KeyOf(p, ps'[p], head);
      }
    }
    forall n | n in names + {NameOf(p, head)}
      ensures exists q :: q in ps' && NameOf(q, head) == n
    {
      if n in names {
        var q :| q in ps && NameOf(q, head) == n;
        assert q in ps';
      } else {
        assert p in ps';
      }
    }
  }

  // -------- a list of patterns --------

  type Patterns = seq<(string, nat)>

  ghost predicate AllWellFormed(list: Patterns) {
    forall i :: 0 <= i < |list| ==> WellFormed(list[i].0) && Pointer(list[i].1)
  }

  function LowAll(list: Patterns): (r: Patterns)
    ensures |r| == |list|
  {
    seq(|list|, i requires 0 <= i < |list| => (PackedHash.Lower(list[i].0), list[i].1))
  }

  // The list `low` is the list in lower case.
  ghost predicate InLower(list: Patterns, low: Patterns) {
    |low| == |list|
    && forall i :: 0 <= i < |list| ==> PackedHash.Lowers(list[i].0, low[i].0) && low[i].1 == list[i].1
  }

  lemma InLowerIs(list: Patterns, low: Patterns)
    ensures InLower(list, low) <==> low == LowAll(list)
  {
    hide PackedHash.Lower, PackedHash.Lowers;
    forall i | 0 <= i < |list| && i < |low|
      ensures PackedHash.Lowers(list[i].0, low[i].0) <==> low[i].0 == PackedHash.Lower(list[i].0)
    {
      PackedHash.LowersIs(list[i].0, low[i].0);
    }
    if InLower(list, low) {
      var other := LowAll(list);
      forall i | 0 <= i < |list|
        ensures low[i] == other[i]
      {
        assert low[i].0 == PackedHash.Lower(list[i].0);
      }
    }
  }

  // Two patterns meet in a table of conflicts.
  ghost predicate Clash(p: string, q: string) {
    || (ExactName(p).Some? && ExactName(p) == ExactName(q))
    || (Shape(p) == Head && Shape(q) == Head && HeadName(p) == HeadName(q))
    || (Shape(p) == Tail && Shape(q) == Tail && p == q)
  }

  ghost predicate ConflictFree(list: Patterns) {
    && (forall i :: 0 <= i < |list| ==> KindOf(list[i].0) != Refused)
    && forall i, j :: 0 <= i < j < |list| ==> !Clash(list[i].0, list[j].0)
  }

  // -------- what the list leaves in the arrays --------

  ghost function StatusOf(ha: Arrays, p: string): Status {
    if KindOf(p) == Refused then Declined else if Conflicts(ha, p) then Busy else Ok
  }

  ghost function After(ha: Arrays, p: string, v: nat): Arrays {
    match StatusOf(ha, p)
    case Ok => Added(ha, p, v)
    case Busy => ha.(exactNames := ha.exactNames + LeftBehind(p))
    case Declined => ha
  }

  // The arrays after the whole list
  ghost function Folded(list: Patterns): Arrays {
    if list == [] then NoNames()
    else
      var n := |list| - 1;
      After(Folded(list[..n]), list[n].0, list[n].1)
  }

  // What is answered for pattern i
  ghost function Answered(list: Patterns, i: nat): Status
    requires i < |list|
  {
    StatusOf(Folded(list[..i]), list[i].0)
  }

  // The accepted patterns, in order
  ghost function Kept(list: Patterns): Patterns {
    if list == [] then []
    else
      var n := |list| - 1;
      Kept(list[..n]) + if Answered(list, n) == Ok then [list[n]] else []
  }

  // The name a pattern looks for in one of the three tables of conflicts
  ghost function Wanted(p: string, table: Kind): Option<string> {
    match table
    case Exact => ExactName(p)
    case Head => if Shape(p) == Head then Some(HeadName(p)) else None
    case Tail => if Shape(p) == Tail then Some(NameOf(p, false)) else None
    case Refused => None
  }

  ghost function TableOf(ha: Arrays, table: Kind): set<string> {
    match table
    case Exact => ha.exactNames
    case Head => ha.headNames
    case Tail => ha.tailNames
    case Refused => {}
  }

  // An accepted pattern enters its names; a busy one enters its exact name all the same.
  ghost predicate Enters(p: string, r: Status, table: Kind) {
    r == Ok || (r == Busy && table == Exact)
  }

  ghost predicate Names(list: Patterns, i: nat, table: Kind, n: string)
    requires i < |list|
  {
    Enters(list[i].0, Answered(list, i), table) && Wanted(list[i].0, table) == Some(n)
  }

  // Just the names entered by the list are in the table.
  ghost predicate TableIs(list: Patterns, names: set<string>, table: Kind) {
    forall n :: n in names <==> exists i :: 0 <= i < |list| && Names(list, i, table, n)
  }

  lemma ConflictWanted(ha: Arrays, p: string)
    ensures Conflicts(ha, p) <==>
              exists table :: Wanted(p, table).Some? && Wanted(p, table).value in TableOf(ha, table)
  {
    hide Stars;
    ShapeLong(p);
    assert Conflicts(ha, p) ==>
        || (Wanted(p, Exact).Some? && Wanted(p, Exact).value in TableOf(ha, Exact))
        || (Wanted(p, Head).Some? && Wanted(p, Head).value in TableOf(ha, Head))
        || (Wanted(p, Tail).Some? && Wanted(p, Tail).value in TableOf(ha, Tail));
  }

  lemma ShapeLong(p: string)
    ensures Shape(p) == Tail ==> NameOf(p, false) == p[..|p| - 1] && p == NameOf(p, false) + "*"
    ensures Shape(p) == Head && p[0] == '.' ==> LeftBehind(p) == {p[1..]} && ExactName(p) == Some(p[1..])
    ensures Shape(p) == Head && p[0] != '.' ==> LeftBehind(p) == {} && ExactName(p) == None
    ensures Shape(p) == Exact ==> LeftBehind(p) == {} && ExactName(p) == Some(p)
    ensures Shape(p) == Tail ==> LeftBehind(p) == {} && ExactName(p) == None
  {
  }

  // What one more pattern enters
  lemma Entered(ha: Arrays, p: string, v: nat, table: Kind)
    ensures
      var name := Wanted(p, table);
      TableOf(After(ha, p, v), table)
      == TableOf(ha, table) + if Enters(p, StatusOf(ha, p), table) && name.Some? then {name.value} else {}
  {
    hide RevLabels, Sensible, Stars;
    ShapeLong(p);
  }

  lemma {:induction false} TablesFolded(list: Patterns, table: Kind)
    ensures TableIs(list, TableOf(Folded(list), table), table)
  {
    hide Names, TableOf, After;
    if list == [] {
      EmptyTable(table);
    } else {
      var k := |list| - 1;
      TablesFolded(list[..k], table);
      Entered(Folded(list[..k]), list[k].0, list[k].1, table);
      OneEntry(list, TableOf(Folded(list[..k]), table), TableOf(Folded(list), table), table);
    }
  }

  lemma EmptyTable(table: Kind)
    ensures TableOf(NoNames(), table) == {}
  {
  }

  lemma OneEntry(list: Patterns, before: set<string>, after: set<string>, table: Kind)
    requires list != [] && TableIs(list[..|list| - 1], before, table)
    requires
      var (p, r) := (list[|list| - 1].0, Answered(list, |list| - 1));
      after == before + if Enters(p, r, table) && Wanted(p, table).Some? then {Wanted(p, table).value} else {}
    ensures TableIs(list, after, table)
  {
    hide Answered, Enters, Wanted;
    var k := |list| - 1;
    forall i, n | 0 <= i < k
      ensures Names(list[..k], i, table, n) == Names(list, i, table, n)
    {
      PrefixAnswered(list, k, i);
    }
    forall n
      ensures n in after <==> exists i :: 0 <= i < |list| && Names(list, i, table, n)
    {
      if n in before {
        var i :| 0 <= i < k && Names(list[..k], i, table, n);
        assert Names(list, i, table, n);
      } else if n in after {
        assert Names(list, k, table, n);
      } else {
        assert forall i :: 0 <= i < k ==> !Names(list[..k], i, table, n);
        assert !Names(list, k, table, n);
      }
    }
  }

  lemma PrefixAnswered(list: Patterns, n: nat, i: nat)
    requires i < n <= |list|
    ensures Answered(list[..n], i) == Answered(list, i)
  {
    assert list[..n][..i] == list[..i];
  }

  // A pattern is refused as busy just because of an earlier one that has entered one of the
  // names it looks for.
  lemma BusyBecause(list: Patterns, i: nat)
    requires i < |list| && KindOf(list[i].0) != Refused
    ensures Answered(list, i) == Busy <==>
              exists table, j {:trigger Enters(list[j].0, Answered(list, j), table)} ::
                0 <= j < i && Enters(list[j].0, Answered(list, j), table)
                && Wanted(list[i].0, table).Some? && Wanted(list[j].0, table) == Wanted(list[i].0, table)
  {
    hide KindOf, Conflicts, TableOf, Folded, Wanted, Enters;
    var ha, p := Folded(list[..i]), list[i].0;
    ConflictWanted(ha, p);
    forall j | 0 <= j < i
      ensures Answered(list[..i], j) == Answered(list, j)
    {
      PrefixAnswered(list, i, j);
    }
    if table :| Wanted(p, table).Some? && Wanted(p, table).value in TableOf(ha, table) {
      TablesFolded(list[..i], table);
      var j :| 0 <= j < i && Names(list[..i], j, table, Wanted(p, table).value);
      assert Enters(list[j].0, Answered(list, j), table);
    }
    forall table, j | 0 <= j < i && Enters(list[j].0, Answered(list, j), table)
                      && Wanted(p, table).Some? && Wanted(list[j].0, table) == Wanted(p, table)
      ensures Wanted(p, table).value in TableOf(ha, table)
    {
      TablesFolded(list[..i], table);
      assert Names(list[..i], j, table, Wanted(p, table).value);
    }
  }

  ghost predicate AllOk(list: Patterns) {
    forall i :: 0 <= i < |list| ==> Answered(list, i) == Ok
  }

  lemma ClashWanted(p: string, q: string)
    ensures Clash(p, q) <==> exists table :: Wanted(p, table).Some? && Wanted(p, table) == Wanted(q, table)
  {
    hide Shape, HeadName, ExactName;
    ShapeLong(p);
    ShapeLong(q);
    assert Clash(p, q) ==>
        || (Wanted(p, Exact).Some? && Wanted(p, Exact) == Wanted(q, Exact))
        || (Wanted(p, Head).Some? && Wanted(p, Head) == Wanted(q, Head))
        || (Wanted(p, Tail).Some? && Wanted(p, Tail) == Wanted(q, Tail));
  }

  lemma ClashBusy(list: Patterns, i: nat, j: nat)
    requires i < j < |list| && Answered(list, i) == Ok && KindOf(list[j].0) != Refused
    requires Clash(list[i].0, list[j].0)
    ensures Answered(list, j) == Busy
  {
    hide KindOf, Clash, Wanted, Answered, Enters;
    BusyBecause(list, j);
    ClashWanted(list[i].0, list[j].0);
    OkEnters(list[i].0);
    var table :| Wanted(list[i].0, table).Some? && Wanted(list[i].0, table) == Wanted(list[j].0, table);
    assert Enters(list[i].0, Answered(list, i), table);
  }

  // Every pattern is accepted just when no two meet in a table.
  lemma AllOkIff(list: Patterns)
    ensures AllOk(list) <==> ConflictFree(list)
  {
    hide KindOf, Clash, Wanted, Answered, Enters;
    if AllOk(list) {
      forall i | 0 <= i < |list|
        ensures KindOf(list[i].0) != Refused
      {
        OkKind(list, i);
      }
      forall i, j | 0 <= i < j < |list|
        ensures !Clash(list[i].0, list[j].0)
      {
        OkKind(list, j);
        if Clash(list[i].0, list[j].0) {
          ClashBusy(list, i, j);
        }
      }
    } else {
      var j :| 0 <= j < |list| && Answered(list, j) != Ok;
      OkKind(list, j);
      if KindOf(list[j].0) != Refused {
        BusyBecause(list, j);
        var table, i :| 0 <= i < j && Enters(list[i].0, Answered(list, i), table)
                        && Wanted(list[j].0, table).Some? && Wanted(list[i].0, table) == Wanted(list[j].0, table);
        ClashWanted(list[i].0, list[j].0);
      }
    }
  }

  lemma OkKind(list: Patterns, i: nat)
    requires i < |list|
    ensures Answered(list, i) == Declined <==> KindOf(list[i].0) == Refused
  {
    hide KindOf, Folded, Conflicts;
  }

  lemma OkEnters(p: string)
    ensures forall table :: Enters(p, Ok, table)
  {
  }

  lemma {:induction false} KeptAll(list: Patterns)
    requires AllOk(list)
    ensures Kept(list) == list
  {
    hide Answered;
    if list != [] {
      var n := |list| - 1;
      forall i | 0 <= i < n
        ensures Answered(list[..n], i) == Ok
      {
        PrefixAnswered(list, n, i);
      }
      KeptAll(list[..n]);
      assert list == list[..n] + [list[n]];
    }
  }

  // Where a pattern ends up
  ghost predicate Placed(p: string, v: nat, exact: map<string, nat>, heads: map<string, nat>, tails: map<string, nat>) {
    match KindOf(p)
    case Exact => p in exact && exact[p] == v
    case Head => p in heads && heads[p] == v
    case Tail => p in tails && tails[p] == v
    case Refused => false
  }

  // Every accepted pattern is one of the list.
  ghost predicate FromList(list: Patterns, exact: map<string, nat>, heads: map<string, nat>, tails: map<string, nat>) {
    && (forall p :: p in exact ==> (p, exact[p]) in list && KindOf(p) == Exact)
    && (forall p :: p in heads ==> (p, heads[p]) in list && KindOf(p) == Head)
    && (forall p :: p in tails ==> (p, tails[p]) in list && KindOf(p) == Tail)
  }

  ghost predicate AllPlaced(list: Patterns, exact: map<string, nat>, heads: map<string, nat>, tails: map<string, nat>) {
    forall i :: 0 <= i < |list| ==> Placed(list[i].0, list[i].1, exact, heads, tails)
  }

  // The patterns accepted so far, as ghost maps beside the arrays.
  ghost predicate Step(kept: Patterns, ha: Arrays, exact: map<string, nat>, heads: map<string, nat>,
                       tails: map<string, nat>) {
    && Collected(ha, exact, heads, tails)
    && FromList(kept, exact, heads, tails) && AllPlaced(kept, exact, heads, tails)
  }

  lemma OneExact(keys: seq<PackedHash.Key>, names: set<string>, exact: map<string, nat>, p: string, v: nat)
    requires ExactOf(keys, names, exact) && p !in names && Pointer(v) && Low(p)
    ensures ExactOf(keys + [ExactKey(p, v)], names + {p}, exact[p := v])
  {
    hide PackedHash.HashKey, PackedHash.Lower;
    var k, exact' := ExactKey(p, v), exact[p := v];
    var keys' := keys + [k];
    forall i | 0 <= i < |keys|
      ensures keys[i].Key? && keys[i].name != p && ExactAt(keys[i], exact')
    {
      assert ExactAt(keys[i], exact);
    }
    forall n | n in exact'
      ensures exists i :: 0 <= i < |keys'| && keys'[i].Key? && keys'[i].name == n
    {
      if n == p {
        assert keys'[|keys|].name == n;
      } else {
        var i :| 0 <= i < |keys| && keys[i].Key? && keys[i].name == n;
        assert keys'[i].name == n;
      }
    }
  }

  lemma MoreNames(keys: seq<PackedHash.Key>, names: set<string>, exact: map<string, nat>, names': set<string>)
    requires ExactOf(keys, names, exact) && names <= names'
    ensures ExactOf(keys, names', exact)
  {
    hide ExactAt;
  }

  lemma StepAdded(kept: Patterns, ha: Arrays, exact: map<string, nat>, heads: map<string, nat>,
                  tails: map<string, nat>, p: string, v: nat)
      returns (exact': map<string, nat>, heads': map<string, nat>, tails': map<string, nat>)
    requires Step(kept, ha, exact, heads, tails) && KindOf(p) != Refused && !Conflicts(ha, p)
    requires WellFormed(p) && Low(p) && Pointer(v)
    ensures Step(kept + [(p, v)], Added(ha, p, v), exact', heads', tails')
  {
    hide KeysOf, ExactOf, RevLabels, WellFormed, Clean, Sensible, Low, Pointer, PackedHash.HashKey;
    exact', heads', tails' := exact, heads, tails;
    var ha' := Added(ha, p, v);
    match Shape(p) {
      case Head =>
        OneMore(ha.heads, ha.headNames, heads, true, p, v);
        MoreNames(ha.keys, ha.exactNames, exact, ha'.exactNames);
        heads' := heads[p := v];
      case Tail =>
        OneMore(ha.tails, ha.tailNames, tails, false, p, v);
        tails' := tails[p := v];
      case Exact =>
        OneExact(ha.keys, ha.exactNames, exact, p, v);
        ExactFresh(ha.keys, ha.exactNames, exact, p);
        exact' := exact[p := v];
      case Refused =>
    }
    assert Collected(ha', exact', heads', tails');
    MoreFromList(kept, p, v, exact, heads, tails, exact', heads', tails');
    MorePlaced(kept, p, v, exact, heads, tails, exact', heads', tails');
  }

  lemma ExactFresh(keys: seq<PackedHash.Key>, names: set<string>, exact: map<string, nat>, p: string)
    requires ExactOf(keys, names, exact) && p !in names
    ensures p !in exact
  {
  }

  lemma MoreFromList(list: Patterns, p: string, v: nat, exact: map<string, nat>, heads: map<string, nat>,
                     tails: map<string, nat>, exact': map<string, nat>, heads': map<string, nat>,
                     tails': map<string, nat>)
    requires FromList(list, exact, heads, tails)
    requires exact' == exact || (exact' == exact[p := v] && KindOf(p) == Exact)
    requires heads' == heads || (heads' == heads[p := v] && KindOf(p) == Head)
    requires tails' == tails || (tails' == tails[p := v] && KindOf(p) == Tail)
    ensures FromList(list + [(p, v)], exact', heads', tails')
  {
    hide KindOf;
    assert (p, v) in list + [(p, v)] && forall x :: x in list ==> x in list + [(p, v)];
  }

  lemma MorePlaced(list: Patterns, p: string, v: nat, exact: map<string, nat>, heads: map<string, nat>,
                   tails: map<string, nat>, exact': map<string, nat>, heads': map<string, nat>,
                   tails': map<string, nat>)
    requires AllPlaced(list, exact, heads, tails) ==> Placed(p, v, exact', heads', tails')
    requires forall n :: n in exact ==> n in exact' && exact'[n] == exact[n]
    requires forall n :: n in heads ==> n in heads' && heads'[n] == heads[n]
    requires forall n :: n in tails ==> n in tails' && tails'[n] == tails[n]
    ensures AllPlaced(list, exact, heads, tails) ==> AllPlaced(list + [(p, v)], exact', heads', tails')
  {
    hide KindOf;
    var all := list + [(p, v)];
    if AllPlaced(list, exact, heads, tails) {
      forall i | 0 <= i < |all|
        ensures Placed(all[i].0, all[i].1, exact', heads', tails')
      {
        if i < |list| {
          assert all[i] == list[i] && Placed(list[i].0, list[i].1, exact, heads, tails);
        }
      }
    }
  }

  // The patterns are added one by one, in lower case; what is refused is left out.
  method AddAll(list: Patterns)
      returns (ha: Arrays, rs: seq<Status>, ghost exact: map<string, nat>, ghost heads: map<string, nat>,
               ghost tails: map<string, nat>)
    requires AllWellFormed(list)
    ensures ha == Folded(LowAll(list)) && |rs| == |list|
    ensures forall i :: 0 <= i < |list| ==> rs[i] == Answered(LowAll(list), i)
    ensures Step(Kept(LowAll(list)), ha, exact, heads, tails)
    ensures NoCapitals(ha)
  {
    hide NoCapitals, PackedHash.Lowers, Step, AllPlaced, Placed, FromList, Collected, Conflicts, Added, KindOf,
         WellFormed, LeftBehind, Kept, PackedHash.Lower, Low, Pointer;
    ha, rs, exact, heads, tails := NoNames(), [], map[], map[], map[];
    ghost var low := LowAll(list);
    NothingAdded();
    assert low[..0] == [];
    while |rs| < |list|
      invariant |rs| <= |list| && ha == Folded(low[..|rs|])
      invariant forall i :: 0 <= i < |rs| ==> rs[i] == Answered(low, i)
      invariant Step(Kept(low[..|rs|]), ha, exact, heads, tails)
    {
      var n := |rs|;
      var (p, v) := list[n];
      assert WellFormed(list[n].0);
      WellLow(p);
      OneFolded(low, n);
      ghost var ha0 := ha;
      var r;
      PackedHash.LowersIs(p, low[n].0);
      r, ha := AddKey(ha, p, v, low[n].0);
      if r == Ok {
        exact, heads, tails := StepAdded(Kept(low[..n]), ha0, exact, heads, tails, low[n].0, v);
      } else {
        StepRefused(Kept(low[..n]), ha0, ha, exact, heads, tails);
      }
      rs := rs + [r];
    }
    assert low[..|list|] == low;
    StepLow(Kept(low), ha, exact, heads, tails);
  }

  // No collected name has a capital.
  ghost predicate NoCapitals(ha: Arrays) {
    && (forall k, i :: k in ha.keys && k.Key? && 0 <= i < |k.name| ==> !PackedHash.Capital(k.name[i]))
    && (forall k, i :: (k in ha.heads || k in ha.tails) && 0 <= i < |k.name| ==> !PackedHash.Capital(k.name[i]))
  }

  lemma LowNoCapital(n: string)
    requires Low(n)
    ensures forall i :: 0 <= i < |n| ==> !PackedHash.Capital(n[i])
  {
    hide PackedHash.Lower, PackedHash.Capital;
    PackedHash.LowersIs(n, n);
  }

  lemma StepLow(kept: Patterns, ha: Arrays, exact: map<string, nat>, heads: map<string, nat>, tails: map<string, nat>)
    requires Step(kept, ha, exact, heads, tails)
    ensures NoCapitals(ha)
  {
    hide PackedHash.Lower, PackedHash.Capital, PackedHash.HashKey, KeysOf, FromList, AllPlaced;
    KeysClean(ha.heads, ha.headNames, heads, true);
    KeysClean(ha.tails, ha.tailNames, tails, false);
    forall k | k in ha.keys
      ensures Low(k.name)
    {
      var i :| 0 <= i < |ha.keys| && ha.keys[i] == k;
      assert ExactAt(ha.keys[i], exact);
    }
    forall k: PackedHash.Key, i | k in ha.keys && k.Key? && 0 <= i < |k.name|
      ensures !PackedHash.Capital(k.name[i])
    {
      LowNoCapital(k.name);
    }
    forall k: Key, i | (k in ha.heads || k in ha.tails) && 0 <= i < |k.name|
      ensures !PackedHash.Capital(k.name[i])
    {
      assert Low(k.name);
      LowNoCapital(k.name);
    }
  }

  lemma WellLow(p: string)
    requires WellFormed(p)
    ensures
      var q := PackedHash.Lower(p);
      WellFormed(q) && Low(q) && KindOf(q) == KindOf(p)
  {
    hide KindOf;
    LowPattern(p);
    var q := PackedHash.Lower(p);
    assert forall i :: 0 <= i < |p| ==> q[i] == PackedHash.ToLower(p[i]);
  }

  lemma OneFolded(list: Patterns, n: nat)
    requires n < |list|
    ensures Folded(list[..n + 1]) == After(Folded(list[..n]), list[n].0, list[n].1)
    ensures Kept(list[..n + 1]) == if Answered(list, n) == Ok then Kept(list[..n]) + [list[n]] else Kept(list[..n])
  {
    assert list[..n + 1][..n] == list[..n];
    PrefixAnswered(list, n + 1, n);
  }

  lemma NothingAdded()
    ensures Kept([]) == [] && Step([], NoNames(), map[], map[], map[])
  {
  }

  lemma StepRefused(kept: Patterns, ha: Arrays, ha': Arrays, exact: map<string, nat>, heads: map<string, nat>,
                    tails: map<string, nat>)
    requires Step(kept, ha, exact, heads, tails)
    requires ha.exactNames <= ha'.exactNames && ha' == ha.(exactNames := ha'.exactNames)
    ensures Step(kept, ha', exact, heads, tails)
  {
    hide KeysOf, ExactOf, FromList, AllPlaced;
    MoreNames(ha.keys, ha.exactNames, exact, ha'.exactNames);
  }

  // A pattern of that kind matches the name.
  ghost predicate Matches(p: string, kind: Kind, name: string) {
    KindOf(p) == kind &&
    match kind
    case Exact => p == name
    case Head => HeadPattern(p) && HeadMatches(p, name)
    case Tail => TailPattern(p) && TailMatches(p, name)
    case Refused => false
  }

  ghost predicate Matched(list: Patterns, kind: Kind, name: string) {
    exists i :: 0 <= i < |list| && Matches(list[i].0, kind, name)
  }

  // The value of the longest matching pattern of that kind
  ghost predicate LongestMatch(list: Patterns, kind: Kind, name: string, v: nat) {
    exists i :: 0 <= i < |list| && Matches(list[i].0, kind, name) && v == list[i].1
                && forall j :: 0 <= j < |list| && Matches(list[j].0, kind, name) ==> |list[j].0| <= |list[i].0|
  }

  lemma BestExact(list: Patterns, exact: map<string, nat>, heads: map<string, nat>, tails: map<string, nat>,
                  name: string)
    requires FromList(list, exact, heads, tails) && AllPlaced(list, exact, heads, tails)
    ensures Matched(list, Exact, name) <==> name in exact
    ensures name in exact ==> LongestMatch(list, Exact, name, exact[name])
  {
    hide KindOf;
    if name in exact {
      assert (name, exact[name]) in list;
      var i :| 0 <= i < |list| && list[i] == (name, exact[name]);
      assert Matches(list[i].0, Exact, name);
    }
    if i :| 0 <= i < |list| && Matches(list[i].0, Exact, name) {
      assert Placed(list[i].0, list[i].1, exact, heads, tails);
    }
  }

  lemma BestHead(list: Patterns, exact: map<string, nat>, heads: map<string, nat>, tails: map<string, nat>,
                 name: string, v: nat)
    requires FromList(list, exact, heads, tails) && AllPlaced(list, exact, heads, tails)
    requires (forall p :: p in heads ==> HeadPattern(p)) && LongestHead(heads, name, v)
    ensures Matched(list, Head, name) <==> exists p :: p in heads && HeadMatches(p, name)
    ensures if v != 0 then LongestMatch(list, Head, name, v) else !Matched(list, Head, name)
  {
    hide KindOf, HeadMatches, HeadPattern;
    forall i | 0 <= i < |list| && Matches(list[i].0, Head, name)
      ensures list[i].0 in heads && HeadMatches(list[i].0, name)
    {
      assert Placed(list[i].0, list[i].1, exact, heads, tails);
    }
    if v != 0 {
      var p :| p in heads && HeadMatches(p, name) && v == heads[p]
               && forall q :: q in heads && HeadMatches(q, name) ==> |q| <= |p|;
      assert (p, heads[p]) in list;
      var i :| 0 <= i < |list| && list[i] == (p, heads[p]);
      assert Matches(list[i].0, Head, name);
    }
  }

  lemma BestTail(list: Patterns, exact: map<string, nat>, heads: map<string, nat>, tails: map<string, nat>,
                 name: string, v: nat)
    requires FromList(list, exact, heads, tails) && AllPlaced(list, exact, heads, tails)
    requires (forall p :: p in tails ==> TailPattern(p)) && LongestTail(tails, name, v)
    ensures Matched(list, Tail, name) <==> v != 0
    ensures v != 0 ==> LongestMatch(list, Tail, name, v)
  {
    hide KindOf, TailMatches, TailPattern;
    forall i | 0 <= i < |list| && Matches(list[i].0, Tail, name)
      ensures list[i].0 in tails && TailMatches(list[i].0, name)
    {
      assert Placed(list[i].0, list[i].1, exact, heads, tails);
    }
    if v != 0 {
      var p :| p in tails && TailMatches(p, name) && v == tails[p]
               && forall q :: q in tails && TailMatches(q, name) ==> |q| <= |p|;
      assert (p, tails[p]) in list;
      var i :| 0 <= i < |list| && list[i] == (p, tails[p]);
      assert Matches(list[i].0, Tail, name);
    }
  }

  lemma AnyHead(heads: map<string, nat>, name: string)
    requires forall p :: p in heads ==> HeadPattern(p)
    requires forall p :: p in heads ==> !HeadMatches(p, name)
    ensures LongestHead(heads, name, 0)
  {
  }

  // The exact pattern first, then the longest leading wildcard that matches, then the longest
  // trailing one, else NULL
  ghost predicate Best(list: Patterns, name: string, v: nat) {
    if Matched(list, Exact, name) then LongestMatch(list, Exact, name, v)
    else if name != "" && Matched(list, Head, name) then LongestMatch(list, Head, name, v)
    else if name != "" && Matched(list, Tail, name) then LongestMatch(list, Tail, name, v)
    else v == 0
  }

  // -------- one answer --------

  ghost predicate NoClash(list: Patterns) {
    forall i, j :: 0 <= i < j < |list| ==> !Clash(list[i].0, list[j].0)
  }

  // A pattern that has been kept was answered with Ok.
  lemma {:induction false} KeptFrom(list: Patterns, k: nat) returns (i: nat)
    requires k < |Kept(list)|
    ensures i < |list| && Answered(list, i) == Ok && list[i] == Kept(list)[k]
  {
    hide Answered;
    var n := |list| - 1;
    if k < |Kept(list[..n])| {
      i := KeptFrom(list[..n], k);
      PrefixAnswered(list, n, i);
    } else {
      i := n;
    }
  }

  lemma {:induction false} KeptApart(list: Patterns)
    ensures NoClash(Kept(list))
  {
    hide Answered, Clash, KindOf;
    if list != [] {
      var n := |list| - 1;
      KeptApart(list[..n]);
      if Answered(list, n) == Ok {
        forall k | 0 <= k < |Kept(list[..n])|
          ensures !Clash(Kept(list[..n])[k].0, list[n].0)
        {
          var i := KeptFrom(list[..n], k);
          PrefixAnswered(list, n, i);
          OkKind(list, n);
          if Clash(list[i].0, list[n].0) {
            ClashBusy(list, i, n);
          }
        }
      }
    }
  }

  // Two patterns of one kind and length that match a name meet in a table of conflicts.
  lemma MatchesClash(p: string, q: string, kind: Kind, name: string)
    requires Matches(p, kind, name) && Matches(q, kind, name) && |p| == |q|
    ensures Clash(p, q)
  {
    hide Stars;
    match kind
    case Exact => {
    }
    case Tail => {
      ShapeLong(p);
      ShapeLong(q);
      SameStart(p[..|p| - 1], q[..|q| - 1], name);
    }
    case Head => {
      var d, e := HeadName(p), HeadName(q);
      HeadEnds(p, name);
      HeadEnds(q, name);
      assert !TwoDots(p, 0) && !TwoDots(q, 0);
      if |d| == |e| {
        SameEnds(d, e, name);
      } else if |d| < |e| {
        SameEnds("." + d, e, name);
      } else {
        SameEnds(d, "." + e, name);
      }
    }
  }

  lemma SameStart(a: string, b: string, name: string)
    requires a <= name && b <= name && |a| == |b|
    ensures a == b
  {
  }

  lemma SameEnds(a: string, b: string, name: string)
    requires EndsWith(name, a) && EndsWith(name, b) && |a| == |b|
    ensures a == b
  {
  }

  lemma HeadEnds(p: string, name: string)
    requires Matches(p, Head, name)
    ensures EndsWith(name, HeadName(p)) && (p[0] == '*' ==> EndsWith(name, "." + HeadName(p)))
  {
    hide Stars;
    var d := HeadName(p);
    if p[0] == '*' {
      assert p[1..] == "." + d;
    }
  }

  lemma OneLongest(list: Patterns, kind: Kind, name: string, v: nat, w: nat)
    requires NoClash(list) && LongestMatch(list, kind, name, v) && LongestMatch(list, kind, name, w)
    ensures v == w
  {
    hide Matches, Clash;
    var i :| 0 <= i < |list| && Matches(list[i].0, kind, name) && v == list[i].1
             && forall k :: 0 <= k < |list| && Matches(list[k].0, kind, name) ==> |list[k].0| <= |list[i].0|;
    var j :| 0 <= j < |list| && Matches(list[j].0, kind, name) && w == list[j].1
             && forall k :: 0 <= k < |list| && Matches(list[k].0, kind, name) ==> |list[k].0| <= |list[j].0|;
    MatchesClash(list[i].0, list[j].0, kind, name);
    MatchesClash(list[j].0, list[i].0, kind, name);
  }

  // There is one answer for a name.
  lemma OneAnswer(list: Patterns, name: string, v: nat, w: nat)
    requires Best(Kept(list), name, v) && Best(Kept(list), name, w)
    ensures v == w
  {
    hide LongestMatch, Matched, Kept, NoClash;
    KeptApart(list);
    var kept := Kept(list);
    if Matched(kept, Exact, name) {
      OneLongest(kept, Exact, name, v, w);
    } else if name != "" && Matched(kept, Head, name) {
      OneLongest(kept, Head, name, v, w);
    } else if name != "" && Matched(kept, Tail, name) {
      OneLongest(kept, Tail, name, v, w);
    }
  }

  // One of the three hashes cannot be built from what has been collected.
  ghost predicate Unbuildable(su: Setup, ha: Arrays)
    requires Sane(su)
  {
    || (ha.keys != [] && Fails(su, ha.keys))
    || (ha.heads != [] && BlockedNames(su, ha.heads)) || (ha.tails != [] && BlockedNames(su, ha.tails))
  }

  // From any patterns to the answer for any name: the answer is right for the patterns that
  // were accepted, and these are all just when no two meet in a table of conflicts.
  method Resolve(su: Setup, list: Patterns, name: string, ghost low: Patterns)
      returns (made: bool, v: nat, rs: seq<Status>)
    requires Sane(su) && AllWellFormed(list) && InLower(list, low)
    ensures |rs| == |list| && forall i :: 0 <= i < |list| ==> rs[i] == Answered(low, i)
    ensures (forall r :: r in rs ==> r == Ok) <==> ConflictFree(low)
    ensures made ==> Best(Kept(low), name, v)
    ensures made && ConflictFree(low) ==> Best(low, name, v)
    ensures made <==> !Unbuildable(su, Folded(low))
  {
    hide KeysOf, ExactOf, Rep, Good, HeadsOf, TailsOf, Undotted, FromList, ConflictFree, AllPlaced, HeadMatches,
         HeadPattern, TailPattern, LongestHead, LongestTail, Answered, Kept, Folded, Best, Sane, Fails, BlockedNames,
         PackedHash.Proper, PackedTrie.Filled, ExactIs, SideIs, Below, Same, LowAll, AllOk, InLower, NoCapitals;
    InLowerIs(list, low);
    made, v := true, 0;
    var ha;
    ghost var exact, heads, tails;
    ha, rs, exact, heads, tails := AddAll(list);
    OkAnswers(low, rs);
    AllOkIff(low);
    var names: Option<PackedHash.Hash> := None;
    if ha.keys != [] {
      ExactProper(ha.keys, ha.exactNames, exact);
      var h;
      made, h := Build(su, ha.keys);
      if !made {
        return;
      }
      names := Some(h);
    }
    ExactTable(su, names, ha.keys, ha.exactNames, exact);
    var head, tail: nat;
    var ts, next, ts', next';
    ghost var ns, ns', side, side';
    NoTables();
    made, head, ts, next, ns, side := Table(su, ha.heads, map[], 4, map[], ha.headNames, heads, true);
    if !made {
      return;
    }
    made, tail, ts', next', ns', side' := Table(su, ha.tails, ts, next, ns, ha.tailNames, tails, false);
    if !made {
      return;
    }
    SideStays(su, ts, ns, ts', ns', next, head, side, true);
    PatternShapes(ha.heads, ha.headNames, heads, true);
    PatternShapes(ha.tails, ha.tailNames, tails, false);
    v := FindCombined(su, ts', names, head, tail, name, ns', ha.keys, exact, side, side');
    BestOfKept(Kept(low), exact, heads, tails, name, v);
    if AllOk(low) {
      KeptAll(low);
    }
  }

  lemma OkAnswers(list: Patterns, rs: seq<Status>)
    requires |rs| == |list| && forall i :: 0 <= i < |list| ==> rs[i] == Answered(list, i)
    ensures (forall r :: r in rs ==> r == Ok) <==> AllOk(list)
  {
    hide Answered;
    assert forall i :: 0 <= i < |rs| ==> rs[i] in rs;
  }

  lemma NoTables()
    ensures Below(map[], map[], 4)
  {
  }

  lemma ExactProper(keys: seq<PackedHash.Key>, names: set<string>, exact: map<string, nat>)
    requires ExactOf(keys, names, exact)
    ensures PackedHash.Proper(keys)
    ensures forall i :: 0 <= i < |keys| ==> keys[i].Key? && keys[i].value != 0
                                            && PackedHash.Lower(keys[i].name) == keys[i].name
  {
    hide PackedHash.Lower, PackedHash.HashKey;
    forall i | 0 <= i < |keys|
      ensures keys[i].Key? && keys[i].value != 0 && Low(keys[i].name)
      ensures keys[i].hash == PackedHash.HashKey(keys[i].name)
    {
      assert ExactAt(keys[i], exact);
    }
  }

  lemma ExactTable(su: Setup, h: Option<PackedHash.Hash>, keys: seq<PackedHash.Key>, names: set<string>,
                   exact: map<string, nat>)
    requires ExactOf(keys, names, exact)
    requires if keys == [] then h == None else h.Some? && PackedTrie.Filled(su, h.value, keys)
    ensures ExactIs(su, h, keys, exact)
  {
    hide PackedTrie.Filled, PackedHash.Lower, PackedHash.HashKey;
    forall i | 0 <= i < |keys|
      ensures keys[i].Key? && keys[i].name in exact && exact[keys[i].name] == keys[i].value
    {
      assert ExactAt(keys[i], exact);
    }
    if keys == [] {
      assert forall n :: n in exact ==> false;
    }
  }

  lemma BestOfKept(list: Patterns, exact: map<string, nat>, heads: map<string, nat>, tails: map<string, nat>,
                   name: string, v: nat)
    requires FromList(list, exact, heads, tails) && AllPlaced(list, exact, heads, tails)
    requires (forall p :: p in heads ==> HeadPattern(p)) && (forall p :: p in tails ==> TailPattern(p))
    requires name in exact ==> v == exact[name]
    requires name !in exact && name != "" ==>
               if exists p :: p in heads && HeadMatches(p, name) then LongestHead(heads, name, v)
               else LongestTail(tails, name, v)
    requires name !in exact && name == "" ==> v == 0
    ensures Best(list, name, v)
  {
    hide FromList, AllPlaced, HeadMatches, HeadPattern, TailPattern, LongestHead, LongestTail, Matched, LongestMatch;
    BestExact(list, exact, heads, tails, name);
    if name !in exact && name != "" {
      if exists p :: p in heads && HeadMatches(p, name) {
        BestHead(list, exact, heads, tails, name, v);
      } else {
        AnyHead(heads, name);
        BestHead(list, exact, heads, tails, name, 0);
        BestTail(list, exact, heads, tails, name, v);
      }
    }
  }

  lemma PatternShapes(keys: seq<Key>, names: set<string>, ps: map<string, nat>, head: bool)
    requires KeysOf(keys, names, ps, head)
    ensures forall p :: p in ps ==> if head then HeadPattern(p) else TailPattern(p)
  {
    forall p | p in ps
      ensures if head then HeadPattern(p) else TailPattern(p)
    {
      if head {
        HeadKeyForm(p);
      } else {
        TailKeyForm(p);
      }
    }
  }

  // The name "a.b" is refused because of ".a.b", which was refused itself.
  method BlockedName() returns (r1: Status, r2: Status, r3: Status, ha: Arrays)
    ensures r1 == Ok && r2 == Busy && r3 == Busy && ha.keys == [] && |ha.heads| == 1
  {
    hide RevLabels, PackedHash.Lower, PackedHash.Lowers, Sensible, Stars;
    Shapes();
    LowersSelf("*.a.b");
    LowersSelf(".a.b");
    LowersSelf("a.b");
    r1, ha := AddKey(NoNames(), "*.a.b", 1, "*.a.b");
    r2, ha := AddKey(ha, ".a.b", 2, ".a.b");
    r3, ha := AddKey(ha, "a.b", 3, "a.b");
  }

  lemma LowersSelf(p: string)
    requires PackedHash.Lower(p) == p
    ensures PackedHash.Lowers(p, p)
  {
    hide PackedHash.Lower;
    PackedHash.LowersIs(p, p);
  }

  lemma Shapes()
    ensures KindOf("*.a.b") == KindOf(".a.b") == Head && KindOf("a.b") == Exact
    ensures HeadName("*.a.b") == HeadName(".a.b") == "a.b"
    ensures PackedHash.Lower("*.a.b") == "*.a.b" && PackedHash.Lower(".a.b") == ".a.b"
    ensures PackedHash.Lower("a.b") == "a.b"
  {
    LowAt("*.a.b");
    LowAt(".a.b");
    LowAt("a.b");
    StarsIn("*.a.b");
    StarsIn(".a.b");
    StarsIn("a.b");
    assert "*.a.b"[2..] == "a.b" && ".a.b"[1..] == "a.b";
  }

  lemma StarsIn(p: string)
    requires p == "*.a.b" || p == ".a.b" || p == "a.b"
    ensures Stars(p) <= 1 && (p == "a.b" ==> Stars(p) == 0)
  {
    if p == "*.a.b" {
      assert p == ['*'] + ".a.b";
      StarsCons('*', ".a.b");
      NoStars(".a.b");
    } else {
      NoStars(p);
    }
  }

  lemma {:induction false} StarsCons(c: char, s: string)
    ensures Stars([c] + s) <= 1 + Stars(s)
    decreases |s|
  {
    var t := [c] + s;
    if s == [] {
      assert t[..|t| - 1] == [];
    } else {
      assert t[..|t| - 1] == [c] + s[..|s| - 1];
      StarsCons(c, s[..|s| - 1]);
    }
  }

  lemma {:induction false} NoStars(s: string)
    requires '*' !in s
    ensures Stars(s) == 0
    decreases |s|
  {
    if s != [] {
      var t := s[..|s| - 1];
      assert forall c :: c in t ==> c in s;
      NoStars(t);
    }
  }
}
