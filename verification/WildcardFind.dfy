// Wildcard patterns, and the lookups of ngx_hash.c that answer for them.

module WildcardFind {
  import opened DomainNames
  import opened Options
  import opened WildcardTrie
  import opened WildcardHash
  import opened PackedTrie
  import PackedHash

  // -------- patterns --------

  // "*.example.com" and ".example.com"
  ghost predicate HeadPattern(p: string) {
    |p| > 1 && (if p[0] == '*' then p[1] == '.' && |p| > 2 else p[0] == '.' && p[1] != '.')
  }

  ghost predicate HeadMatches(p: string, name: string)
    requires HeadPattern(p)
  {
    if p[0] == '*' then EndsWith(name, p[1..]) else EndsWith(name, p) || name == p[1..]
  }

  // "www.example.*"
  ghost predicate TailPattern(p: string) {
    |p| > 2 && EndsWith(p, ".*") && p[|p| - 3] != '.'
  }

  ghost predicate TailMatches(p: string, name: string)
    requires TailPattern(p)
  {
    p[..|p| - 1] <= name
  }

  // `k` holds the labels after position i turned round, but for the `len` characters right
  // after it, which belong to the label that i is in.
  ghost predicate Converted(p: string, i: nat, len: nat, k: string) {
    && i + 1 + len <= |p| && '.' !in p[i + 1..i + 1 + len]
    && if i + 1 + len == |p| then k == ""
       else p[i + 1 + len] == '.' && k == RevLabels(p[i + 2 + len..]) + "."
  }

  lemma ConvertDot(p: string, i: nat, len: nat, k: string)
    requires Converted(p, i, len, k) && 0 < i && p[i] == '.'
    ensures Converted(p, i - 1, 0, k + p[i + 1..i + 1 + len] + ".")
  {
    var l := p[i + 1..i + 1 + len];
    if i + 1 + len == |p| {
      assert p[i + 1..] == l && k + l == l;
      Single(l);
    } else {
      var t := p[i + 2 + len..];
      assert p[i + 1..] == l + "." + t;
      Joined(l, t);
    }
  }

  lemma ConvertEnd(p: string, len: nat, k: string)
    requires Converted(p, 0, len, k)
    ensures k + p[1..1 + len] == RevLabels(p[1..])
  {
    var l := p[1..1 + len];
    if 1 + len == |p| {
      assert p[1..] == l && k + l == l;
      Single(l);
    } else {
      var t := p[2 + len..];
      assert p[1..] == l + "." + t;
      Joined(l, t);
    }
  }

  // The conversion of ngx_hash_add_key: a leading wildcard is turned round label by label.
  method HeadKey(p: string) returns (k: string)
    requires HeadPattern(p)
    ensures k == RevLabels(p[1..])
  {
    hide RevLabels;
    k := "";
    var len: nat := 0;
    var i: nat := |p| - 1;
    while i > 0
      invariant Converted(p, i, len, k)
    {
      if p[i] == '.' {
        ConvertDot(p, i, len, k);
        k := k + p[i + 1..i + 1 + len] + ".";
        len := 0;
      } else {
        assert p[i..i + 1 + len] == [p[i]] + p[i + 1..i + 1 + len];
        len := len + 1;
      }
      i := i - 1;
    }
    ConvertEnd(p, len, k);
    if len > 0 {
      k := k + p[1..1 + len];
    } else {
      assert k + p[1..1 + len] == k;
    }
  }

  lemma {:induction false} RevLength(s: string)
    ensures |RevLabels(s)| == |s|
    decreases |s|
  {
    Parted(s);
    if HasDot(s) {
      RevLength(Rest(s));
    }
  }

  // A name is matched by a pattern exactly when its key matches the name turned round.
  lemma KeyMatches(p: string, name: string)
    requires HeadPattern(p)
    ensures Match(RevLabels(p[1..]), RevLabels(name)) <==> HeadMatches(p, name)
    ensures |RevLabels(p[1..])| == |p| - 1
  {
    RevLength(p[1..]);
    if p[0] == '*' {
      var d := p[2..];
      assert p[1..] == "" + "." + d;
      Joined("", d);
      assert RevLabels(p[1..]) == RevLabels(d) + ".";
      BelowRev(name, d);
      assert "." + d == p[1..];
    } else {
      var d := p[1..];
      NotDotted(d);
      SameRev(d, name);
      BelowRev(name, d);
      assert "." + d == p;
    }
  }

  lemma NotDotted(d: string)
    requires d != "" && d[0] != '.'
    ensures !Dotted(RevLabels(d))
  {
    Parted(d);
    if HasDot(d) {
      var f := First(d);
      assert f != "" && f[|f| - 1] in f;
      assert RevLabels(d)[|RevLabels(d)| - 1] == f[|f| - 1];
    } else {
      assert RevLabels(d) == d && d[|d| - 1] in d;
    }
  }

  // -------- what the patterns say --------

  // The names of the leading wildcard table are the keys of the patterns.
  ghost predicate HeadsOf(patterns: map<string, nat>, m: Names) {
    && (forall p :: p in patterns ==> HeadPattern(p) && RevLabels(p[1..]) in m && m[RevLabels(p[1..])] == patterns[p])
    && (forall k :: k in m ==> exists p :: p in patterns && HeadPattern(p) && RevLabels(p[1..]) == k)
  }

  // The value of the longest of the patterns that match, or NULL.
  ghost predicate LongestHead(patterns: map<string, nat>, name: string, v: nat)
    requires forall p :: p in patterns ==> HeadPattern(p)
  {
    if v == 0 then forall p :: p in patterns ==> !HeadMatches(p, name)
    else exists p :: p in patterns && HeadMatches(p, name) && v == patterns[p]
                     && forall q :: q in patterns && HeadMatches(q, name) ==> |q| <= |p|
  }

  lemma HeadAnswer(patterns: map<string, nat>, m: Names, name: string, v: nat)
    requires HeadsOf(patterns, m) && Answers(m, RevLabels(name), v)
    ensures LongestHead(patterns, name, v)
  {
    hide Match, RevLabels;
    forall p | p in patterns
      ensures Match(RevLabels(p[1..]), RevLabels(name)) <==> HeadMatches(p, name)
      ensures |RevLabels(p[1..])| == |p| - 1 && RevLabels(p[1..]) in m
    {
      KeyMatches(p, name);
    }
    if v != 0 {
      var k :| Best(m, RevLabels(name), k) && v == m[k];
      var p :| p in patterns && HeadPattern(p) && RevLabels(p[1..]) == k;
      assert HeadMatches(p, name) && v == patterns[p];
    }
  }

  ghost predicate TailsOf(patterns: map<string, nat>, m: Names) {
    && (forall p :: p in patterns ==> TailPattern(p) && p[..|p| - 2] in m && m[p[..|p| - 2]] == patterns[p])
    && (forall k :: k in m ==> k + ".*" in patterns)
  }

  ghost predicate LongestTail(patterns: map<string, nat>, name: string, v: nat)
    requires forall p :: p in patterns ==> TailPattern(p)
  {
    if v == 0 then forall p :: p in patterns ==> !TailMatches(p, name)
    else exists p :: p in patterns && TailMatches(p, name) && v == patterns[p]
                     && forall q :: q in patterns && TailMatches(q, name) ==> |q| <= |p|
  }

  lemma TailAnswer(patterns: map<string, nat>, m: Names, name: string, v: nat)
    requires TailsOf(patterns, m) && AnswersTail(m, name, v)
    ensures LongestTail(patterns, name, v)
  {
    forall p | p in patterns
      ensures MatchTail(p[..|p| - 2], name) <==> TailMatches(p, name)
    {
      assert p[|p| - 2..] == ".*";
      assert p[..|p| - 2] + "." == p[..|p| - 1];
    }
    if v != 0 {
      var k :| BestTail(m, name, k) && v == m[k];
      var p := k + ".*";
      assert p[..|p| - 2] == k;
      assert TailMatches(p, name) && v == patterns[p];
    }
  }

  // -------- lookups --------

  // ngx_hash_find_wc_head
  method FindWcHead(su: Setup, ts: Tables, a: nat, name: string, ghost ns: Lists, ghost wc: Wc, ghost bound: nat)
      returns (v: nat)
    requires Sane(su) && Packs(ts, ns, su, a, wc, bound)
    ensures v == LookupHead(wc, RevLabels(name))
    decreases |name|
  {
    hide Sane, Packs, PacksAt, Filled, Sought, RevLabels, First, HasDot, Rest;
    var n: nat := |name|;
    while n > 0 && name[n - 1] != '.'
      invariant n <= |name| && '.' !in name[n..]
    {
      n := n - 1;
    }
    var l := name[n..];
    LastLabel(name, n);
    AtTable(ts, ns, su, a, wc, bound);
    SoughtIn(ts, ns, su, a, wc, bound, l);
    var value := Seek(su, ts[a].hash, l, ns[a]);
    if value == 0 {
      return ts[a].value;
    }
    Decoded(ts, ns, su, a, value, wc.hash[l], bound);
    if value % 4 >= 2 {
      var w := value - value % 4;
      ghost var sub := wc.hash[l].wc;
      AtTable(ts, ns, su, w, sub, bound - 1);
      if n == 0 {
        return if value % 2 == 1 then 0 else ts[w].value;
      }
      v := FindWcHead(su, ts, w, name[..n - 1], ns, sub, bound - 1);
      if v != 0 {
        return;
      }
      return ts[w].value;
    }
    if value % 2 == 1 {
      return if n == 0 then 0 else value - value % 4;
    }
    v := value;
  }

  lemma AtTable(ts: Tables, ns: Lists, su: Setup, a: nat, wc: Wc, bound: nat)
    requires Packs(ts, ns, su, a, wc, bound)
    ensures a in ts && a in ns && ts[a].value == wc.value
  {
    hide PacksAt, Filled;
  }

  // What the two low bits of a value say
  lemma Decoded(ts: Tables, ns: Lists, su: Setup, a: nat, v: nat, t: Tagged, bound: nat)
    requires PacksAt(ts, ns, su, a, v, t, bound)
    ensures t.Table? <==> v % 4 >= 2
    ensures t.Table? ==> (t.below <==> v % 2 == 1) && 0 < bound && Packs(ts, ns, su, v - v % 4, t.wc, bound - 1)
    ensures t.Data? ==> (t.below <==> v % 2 == 1) && t.value == v - v % 4 && (!t.below ==> t.value == v)
  {
    hide Packs;
    LowBits(v);
    if t.Data? {
      Rounded(t.value, v - t.value);
    }
  }

  lemma LowBits(v: nat)
    ensures v % 4 == 0 || v % 4 == 1 || v % 4 == 2 || v % 4 == 3
    ensures v % 2 == 1 <==> v % 4 == 1 || v % 4 == 3
  {
    var q := v / 4;
    assert v == 4 * q + v % 4;
  }

  lemma Rounded(d: nat, r: nat)
    requires d % 4 == 0 && r < 4
    ensures (d + r) % 4 == r
  {
  }

  lemma LastLabel(name: string, n: nat)
    requires n <= |name| && '.' !in name[n..] && (n > 0 ==> name[n - 1] == '.')
    ensures
      var r := RevLabels(name);
      if n == 0 then !HasDot(r) && First(r) == name[n..]
      else HasDot(r) && First(r) == name[n..] && Rest(r) == RevLabels(name[..n - 1])
  {
    hide *;
    var l := name[n..];
    if n == 0 {
      assert l == name;
      Single(l);
      RevSingle(l);
    } else {
      assert name == name[..n - 1] + "." + l;
      LastOf(name[..n - 1], l);
    }
  }

  lemma LastOf(t: string, l: string)
    requires '.' !in l
    ensures
      var r := RevLabels(t + "." + l);
      HasDot(r) && First(r) == l && Rest(r) == RevLabels(t)
  {
    hide *;
    RevSingle(l);
    RevJoined(t, l);
    Joined(l, RevLabels(t));
  }

  lemma RevSingle(l: string)
    requires '.' !in l
    ensures RevLabels(l) == l
  {
    Single(l);
  }

  // ngx_hash_find_wc_tail. A value that is no table is returned as it is, for names without a
  // trailing dot only.
  method FindWcTail(su: Setup, ts: Tables, a: nat, name: string, ghost ns: Lists, ghost wc: Wc, ghost m: Names,
                    ghost bound: nat)
      returns (v: nat)
    requires Sane(su) && Packs(ts, ns, su, a, wc, bound) && Rep(wc, m, bound) && Undotted(m)
    ensures v == LookupTail(wc, name)
    decreases |name|
  {
    hide Sane, Packs, PacksAt, Filled, Sought, First, HasDot, Rest, Rep, Undotted, Sub;
    var i := 0;
    while i < |name| && name[i] != '.'
      invariant i <= |name| && '.' !in name[..i]
    {
      i := i + 1;
    }
    FirstLabelIs(name, i);
    if i == |name| {
      return 0;
    }
    var l := name[..i];
    AtTable(ts, ns, su, a, wc, bound);
    SoughtIn(ts, ns, su, a, wc, bound, l);
    var value := Seek(su, ts[a].hash, l, ns[a]);
    if value == 0 {
      return ts[a].value;
    }
    Decoded(ts, ns, su, a, value, wc.hash[l], bound);
    UndottedAt(wc, m, bound, l);
    if value % 4 >= 2 {
      var w := value - value % 4;
      ghost var sub := wc.hash[l].wc;
      AtTable(ts, ns, su, w, sub, bound - 1);
      v := FindWcTail(su, ts, w, name[i + 1..], ns, sub, Sub(m, l), bound - 1);
      if v != 0 {
        return;
      }
      return ts[w].value;
    }
    v := value;
  }

  lemma FirstLabelIs(name: string, i: nat)
    requires i <= |name| && '.' !in name[..i] && (i < |name| ==> name[i] == '.')
    ensures HasDot(name) <==> i < |name|
    ensures i < |name| ==> First(name) == name[..i] && Rest(name) == name[i + 1..]
  {
    DotAtIs(name, i);
  }

  lemma UndottedAt(wc: Wc, m: Names, bound: nat, l: string)
    requires Rep(wc, m, bound) && Undotted(m) && l in wc.hash
    ensures match wc.hash[l]
            case Data(_, below) => !below
            case Table(w, _) => 0 < bound && Rep(w, Sub(m, l), bound - 1) && Undotted(Sub(m, l))
  {
    hide Sub;
    assert RepAt(wc.hash[l], m, l, bound);
    SubUndotted(m, l);
    assert Dotted(l + ".");
  }

  // The hash of the exact names holds this map.
  ghost predicate ExactIs(su: Setup, h: Option<PackedHash.Hash>, names: seq<PackedHash.Key>, exact: map<string, nat>) {
    if h.None? then exact == map[]
    else
      && Filled(su, h.value, names)
      && (forall i :: 0 <= i < |names| ==> names[i].Key? && names[i].name in exact
                                           && exact[names[i].name] == names[i].value)
      && forall n :: n in exact ==> exists i :: 0 <= i < |names| && names[i].Key? && names[i].name == n
  }

  lemma ExactSought(su: Setup, h: PackedHash.Hash, names: seq<PackedHash.Key>, exact: map<string, nat>, name: string)
    requires ExactIs(su, Some(h), names, exact)
    ensures 0 < h.size && Filled(su, h, names)
    ensures Sought(h, names, name) == if name in exact then exact[name] else 0
    ensures name in exact ==> exact[name] != 0
  {
    hide Sought, PackedHash.Holds, PackedHash.Proper, PackedHash.Lower;
    SoughtIs(su, h, names, name);
    if name in exact {
      var i :| 0 <= i < |names| && names[i].Key? && names[i].name == name;
    }
  }

  // A table of wildcards, if there is one, with what it stands for
  datatype Side = Side(wc: Wc, names: Names, bound: nat, patterns: map<string, nat>)

  ghost predicate SideIs(su: Setup, ts: Tables, ns: Lists, a: nat, side: Side, head: bool) {
    if a == 0 then side.patterns == map[]
    else
      && Packs(ts, ns, su, a, side.wc, side.bound) && Rep(side.wc, side.names, side.bound)
      && side.wc.value == 0 && Good(side.names)
      && if head then HeadsOf(side.patterns, side.names) else TailsOf(side.patterns, side.names) && Undotted(side.names)
  }

  // ngx_hash_find_combined: the exact name, else the longest leading wildcard, else the
  // longest trailing one.
  method FindCombined(su: Setup, ts: Tables, exact: Option<PackedHash.Hash>, head: nat, tail: nat, name: string,
                      ghost ns: Lists, ghost names: seq<PackedHash.Key>, ghost exactMap: map<string, nat>,
                      ghost heads: Side, ghost tails: Side)
      returns (v: nat)
    requires Sane(su) && ExactIs(su, exact, names, exactMap)
    requires SideIs(su, ts, ns, head, heads, true) && SideIs(su, ts, ns, tail, tails, false)
    requires forall p :: p in heads.patterns ==> HeadPattern(p)
    requires forall p :: p in tails.patterns ==> TailPattern(p)
    ensures name in exactMap ==> v == exactMap[name]
    ensures name !in exactMap && name != "" ==>
              if exists p :: p in heads.patterns && HeadMatches(p, name) then LongestHead(heads.patterns, name, v)
              else LongestTail(tails.patterns, name, v)
    ensures name !in exactMap && name == "" ==> v == 0
  {
    hide Rep, Match, RevLabels, HeadMatches, TailMatches, Good, LookupHead, LookupTail, Packs, ExactIs, Sane, Sought,
         HeadPattern, TailPattern, HeadsOf, TailsOf, Answers, AnswersTail, NoMatch, NoMatchTail, Undotted;
    if exact.Some? {
      ExactSought(su, exact.value, names, exactMap, name);
      v := Seek(su, exact.value, name, names);
      if v != 0 {
        return;
      }
    } else {
      NoExact(su, names, exactMap);
    }
    if |name| == 0 {
      return 0;
    }
    if head != 0 {
      v := FindWcHead(su, ts, head, name, ns, heads.wc, heads.bound);
      HeadCorrect(heads.wc, heads.names, heads.bound, RevLabels(name));
      HeadsFound(heads, name, v);
      if v != 0 {
        return;
      }
    }
    if tail != 0 {
      v := FindWcTail(su, ts, tail, name, ns, tails.wc, tails.names, tails.bound);
      TailCorrect(tails.wc, tails.names, tails.bound, name);
      TailsFound(tails, name, v);
      if v != 0 {
        return;
      }
    }
    v := 0;
  }

  lemma NoExact(su: Setup, names: seq<PackedHash.Key>, exact: map<string, nat>)
    requires ExactIs(su, None, names, exact)
    ensures exact == map[]
  {
  }

  lemma HeadsFound(side: Side, name: string, v: nat)
    requires HeadsOf(side.patterns, side.names) && side.wc.value == 0
    requires forall p :: p in side.patterns ==> HeadPattern(p)
    requires (NoMatch(side.names, RevLabels(name)) && (v == 0 || v == side.wc.value))
             || (v != 0 && Answers(side.names, RevLabels(name), v))
    ensures LongestHead(side.patterns, name, v)
    ensures v != 0 ==> exists p :: p in side.patterns && HeadMatches(p, name)
  {
    hide HeadsOf, HeadPattern, HeadMatches, Match, RevLabels;
    assert Answers(side.names, RevLabels(name), v);
    HeadAnswer(side.patterns, side.names, name, v);
  }

  lemma TailsFound(side: Side, name: string, v: nat)
    requires TailsOf(side.patterns, side.names) && side.wc.value == 0
    requires forall p :: p in side.patterns ==> TailPattern(p)
    requires (NoMatchTail(side.names, name) && (v == 0 || v == side.wc.value))
             || (v != 0 && AnswersTail(side.names, name, v))
    ensures LongestTail(side.patterns, name, v)
  {
    hide TailsOf, TailPattern, TailMatches, MatchTail;
    assert AnswersTail(side.names, name, v);
    TailAnswer(side.patterns, side.names, name, v);
  }
}
