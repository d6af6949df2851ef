// The wildcard tables of ngx_hash.c: a trie of labels with tagged values, and what a
// lookup in it means.

module WildcardTrie {
  import opened DomainNames

  // A value of a table: the two low bits of the pointer tell data from a table, and
  // `below` that only longer names match. A NULL value is 0.
  datatype Tagged = Data(value: nat, below: bool) | Table(wc: Wc, below: bool)

  datatype Wc = Wc(hash: map<string, Tagged>, value: nat)

  // The names of a table with their values. In the leading wildcard table they are turned
  // round; a trailing dot means that the name itself does not match.
  type Names = map<string, nat>

  // -------- names --------

  // No empty label, but for the one after a trailing dot.
  ghost predicate Named(k: string)
    decreases |k|
  {
    First(k) != "" && (HasDot(k) && Rest(k) != "" ==> Named(Rest(k)))
  }

  // Well-formed names with values, and no name both with and without a trailing dot.
  ghost predicate Good(m: Names) {
    forall k :: k in m ==> Named(k) && Clean(k) && m[k] != 0 && !(k + "." in m)
  }

  function SubKeys(m: Names, l: string): (keys: set<string>)
    ensures forall k :: k in keys ==> l + "." + k in m
  {
    assert forall k :: k in m && l + "." <= k ==> k == l + "." + k[|l| + 1..];
    set k | k in m && l + "." <= k && k != l + "." :: k[|l| + 1..]
  }

  // The names below label l, without it.
  function Sub(m: Names, l: string): Names {
    map k | k in SubKeys(m, l) :: m[l + "." + k]
  }

  lemma SubFacts(m: Names, l: string)
    ensures forall k :: k in Sub(m, l) <==> k != "" && l + "." + k in m
    ensures forall k :: k in Sub(m, l) ==> Sub(m, l)[k] == m[l + "." + k]
  {
    forall k
      ensures k in SubKeys(m, l) <==> k != "" && l + "." + k in m
    {
      if k in SubKeys(m, l) {
        var x :| x in m && l + "." <= x && x != l + "." && k == x[|l| + 1..];
        assert x == l + "." + k;
      }
      if k != "" && l + "." + k in m {
        var x := l + "." + k;
        assert l + "." <= x && x != l + "." && x[|l| + 1..] == k;
      }
    }
  }

  lemma SubGood(m: Names, l: string)
    requires Good(m) && '.' !in l
    ensures Good(Sub(m, l))
  {
    SubFacts(m, l);
    forall k | k in Sub(m, l)
      ensures Named(k) && Clean(k) && Sub(m, l)[k] != 0 && !(k + "." in Sub(m, l))
    {
      var x := l + "." + k;
      Joined(l, k);
      assert Named(x) && Clean(x);
      assert forall i :: 0 <= i < |k| ==> k[i] == x[|l| + 1 + i];
      assert x + "." == l + "." + (k + ".");
    }
  }

  // The value of label l itself.
  function BaseValue(m: Names, l: string): nat {
    if l in m then m[l] else if l + "." in m then m[l + "."] else 0
  }

  // A name is its first label, that with a dot, or goes on below it.
  lemma KeyKinds(m: Names, k: string)
    requires k in m
    ensures k == First(k) || k == First(k) + "." || (HasDot(k) && Rest(k) in Sub(m, First(k)))
  {
    Parted(k);
    SubFacts(m, First(k));
    if HasDot(k) && Rest(k) == "" {
      assert First(k) + "." + "" == First(k) + ".";
    }
  }

  // -------- what a table says about names --------

  ghost predicate AllWithin(m: Names, n: nat) {
    forall k :: k in m ==> |k| <= n
  }

  // The table `wc` has been built from the names; n bounds their length.
  ghost predicate Rep(wc: Wc, m: Names, n: nat)
    decreases n
  {
    && AllWithin(m, n)
    && (forall l :: l in wc.hash ==> exists k :: k in m && First(k) == l)
    && (forall k :: k in m ==> First(k) in wc.hash)
    && forall l {:trigger RepAt(wc.hash[l], m, l, n)} :: l in wc.hash ==> RepAt(wc.hash[l], m, l, n)
  }

  ghost predicate RepAt(t: Tagged, m: Names, l: string, n: nat)
    decreases n, 0
  {
    match t
    case Data(v, below) => Sub(m, l) == map[] && (if below then l + "." in m else l in m) && v == BaseValue(m, l)
    case Table(w, below) =>
      n > 0 && Sub(m, l) != map[] && Rep(w, Sub(m, l), n - 1) && w.value == BaseValue(m, l) && (below <==> l !in m)
  }

  // -------- leading wildcards --------

  // ngx_hash_find_wc_head on a name turned round.
  function LookupHead(wc: Wc, r: string): nat
    decreases |r|
  {
    var l := First(r);
    if l !in wc.hash then wc.value
    else match wc.hash[l]
      case Data(v, below) => if below && !HasDot(r) then 0 else v
      case Table(w, below) =>
        if !HasDot(r) then (if below then 0 else w.value)
        else
          var v := LookupHead(w, Rest(r));
          if v != 0 then v else w.value
  }

  ghost predicate Dotted(k: string) {
    k != "" && k[|k| - 1] == '.'
  }

  // "com.example." stands for "*.example.com", "com.example" for ".example.com".
  ghost predicate Match(k: string, r: string) {
    if Dotted(k) then k <= r else k == r || k + "." <= r
  }

  ghost predicate NoMatch(m: Names, r: string) {
    forall k :: k in m ==> !Match(k, r)
  }

  // The longest of the names that match.
  ghost predicate Best(m: Names, r: string, k: string) {
    k in m && Match(k, r) && forall j :: j in m && Match(j, r) ==> |j| <= |k|
  }

  ghost predicate Answers(m: Names, r: string, v: nat) {
    if v != 0 then exists k :: Best(m, r, k) && v == m[k] else NoMatch(m, r)
  }

  lemma MatchFirst(k: string, r: string)
    requires Match(k, r)
    ensures First(k) == First(r)
  {
    Parted(k);
    Parted(r);
    if HasDot(k) {
      var t := r[|First(k)| + 1..];
      assert r == First(k) + "." + t;
      Joined(First(k), t);
    } else if k + "." <= r {
      var t := r[|k| + 1..];
      assert r == k + "." + t;
      Joined(k, t);
    }
  }

  lemma MatchBelow(l: string, s: string, r: string)
    requires '.' !in l && s != ""
    ensures Match(l + "." + s, r) <==> HasDot(r) && First(r) == l && Match(s, Rest(r))
  {
    var k := l + "." + s;
    Joined(l, s);
    Parted(r);
    assert Dotted(k) <==> Dotted(s);
    assert k + "." == l + "." + (s + ".");
    if Match(k, r) {
      MatchFirst(k, r);
      assert HasDot(r) by {
        if k <= r {
          assert r == l + "." + (s + r[|k|..]);
          Joined(l, s + r[|k|..]);
        }
      }
    }
    if HasDot(r) && First(r) == l {
      assert r == l + "." + Rest(r);
      PrefixUnder(l + ".", s, Rest(r));
      PrefixUnder(l + ".", s + ".", Rest(r));
      assert l + "." + s == l + "." + Rest(r) <==> s == Rest(r) by {
        assert (l + "." + s)[|l| + 1..] == s && (l + "." + Rest(r))[|l| + 1..] == Rest(r);
      }
    }
  }

  lemma PrefixUnder(p: string, s: string, t: string)
    ensures p + s <= p + t <==> s <= t
  {
    if p + s <= p + t {
      assert s == (p + s)[|p|..] && t[..|s|] == (p + t)[|p|..|p| + |s|];
      assert (p + t)[..|p + s|] == p + s;
    }
    if s <= t {
      assert p + t == p + s + t[|s|..];
    }
  }

  lemma MatchBase(l: string, r: string)
    requires '.' !in l && First(r) == l
    ensures Match(l, r) && (Match(l + ".", r) <==> HasDot(r))
  {
    Parted(r);
    if HasDot(r) {
      assert l + "." <= r;
    }
    assert l + "." <= r ==> '.' in r by {
      if l + "." <= r {
        assert r[|l|] == '.';
      }
    }
  }

  // The lookup answers with the value of the longest name that matches; when there is
  // none, what is left is the value of the table itself, or NULL.
  lemma {:induction false} HeadCorrect(wc: Wc, m: Names, n: nat, r: string)
    requires Rep(wc, m, n) && Good(m)
    ensures
      var v := LookupHead(wc, r);
      (NoMatch(m, r) && (v == 0 || v == wc.value)) || (v != 0 && Answers(m, r, v))
    decreases |r|
  {
    var l := First(r);
    Parted(r);
    if l !in wc.hash {
      forall k | k in m
        ensures !Match(k, r)
      {
        if Match(k, r) {
          MatchFirst(k, r);
        }
      }
    } else {
      assert RepAt(wc.hash[l], m, l, n);
      MatchBase(l, r);
      match wc.hash[l]
      case Data(v, below) => HeadData(m, r, l, v, below);
      case Table(w, below) =>
        SubGood(m, l);
        if HasDot(r) {
          HeadCorrect(w, Sub(m, l), n - 1, Rest(r));
        }
        HeadTable(m, r, l, w.value, if HasDot(r) then LookupHead(w, Rest(r)) else 0, below);
    }
  }

  // Only names with the first label of the looked-up one matter.
  lemma Candidates(m: Names, r: string, k: string)
    requires k in m && Match(k, r)
    ensures First(k) == First(r)
    ensures k == First(r) || k == First(r) + "." || (HasDot(k) && Rest(k) in Sub(m, First(r)))
  {
    MatchFirst(k, r);
    KeyKinds(m, k);
  }

  lemma HeadData(m: Names, r: string, l: string, v: nat, below: bool)
    requires Good(m) && First(r) == l && '.' !in l && Sub(m, l) == map[] && v == BaseValue(m, l)
    requires if below then l + "." in m else l in m
    ensures
      var x := if below && !HasDot(r) then 0 else v;
      if x == 0 then NoMatch(m, r) else Answers(m, r, x)
  {
    MatchBase(l, r);
    var base := if below then l + "." else l;
    assert !(l in m && l + "." in m);
    forall k | k in m && Match(k, r)
      ensures k == base
    {
      Candidates(m, r, k);
    }
    if Match(base, r) {
      assert Best(m, r, base);
    }
  }

  // The names that match are the label itself and names below it that match the rest.
  lemma BelowCandidates(m: Names, r: string, l: string, k: string)
    requires Good(m) && First(r) == l && '.' !in l && k in m && Match(k, r)
    ensures k == l || k == l + "."
            || (HasDot(k) && HasDot(r) && k == l + "." + Rest(k) && Rest(k) in Sub(m, l) && Match(Rest(k), Rest(r)))
  {
    hide Match, Sub;
    SubFacts(m, l);
    Candidates(m, r, k);
    Parted(k);
    if HasDot(k) && Rest(k) in Sub(m, l) {
      MatchBelow(l, Rest(k), r);
    }
  }

  lemma HeadTable(m: Names, r: string, l: string, base: nat, v: nat, below: bool)
    requires Good(m) && First(r) == l && '.' !in l && base == BaseValue(m, l) && (below <==> l !in m)
    requires HasDot(r) ==>
               (NoMatch(Sub(m, l), Rest(r)) && (v == 0 || v == base)) || (v != 0 && Answers(Sub(m, l), Rest(r), v))
    ensures
      var x := if !HasDot(r) then (if below then 0 else base) else if v != 0 then v else base;
      if x == 0 then NoMatch(m, r) else Answers(m, r, x)
  {
    hide Match, Sub, Named, Clean, First, Rest, HasDot;
    MatchBase(l, r);
    SubFacts(m, l);
    var key := if l in m then l else l + ".";
    assert !(l in m && l + "." in m);
    forall k | k in m && Match(k, r)
      ensures k == key || (HasDot(k) && HasDot(r) && k == l + "." + Rest(k) && Rest(k) in Sub(m, l)
              && Match(Rest(k), Rest(r)))
    {
      BelowCandidates(m, r, l, k);
    }
    if HasDot(r) && !NoMatch(Sub(m, l), Rest(r)) {
      var s :| Best(Sub(m, l), Rest(r), s) && v == Sub(m, l)[s];
      MatchBelow(l, s, r);
      assert |l + "." + s| > |key|;
      assert Best(m, r, l + "." + s);
    } else if key in m && Match(key, r) {
      assert Best(m, r, key);
    }
  }

  // -------- trailing wildcards --------

  // ngx_hash_find_wc_tail
  function LookupTail(wc: Wc, x: string): nat
    decreases |x|
  {
    var l := First(x);
    if !HasDot(x) then 0
    else if l !in wc.hash then wc.value
    else match wc.hash[l]
      case Data(v, below) => v
      case Table(w, below) =>
        var v := LookupTail(w, Rest(x));
        if v != 0 then v else w.value
  }

  // "www.example" stands for "www.example.*".
  ghost predicate MatchTail(k: string, x: string) {
    k + "." <= x
  }

  ghost predicate NoMatchTail(m: Names, x: string) {
    forall k :: k in m ==> !MatchTail(k, x)
  }

  ghost predicate BestTail(m: Names, x: string, k: string) {
    k in m && MatchTail(k, x) && forall j :: j in m && MatchTail(j, x) ==> |j| <= |k|
  }

  ghost predicate AnswersTail(m: Names, x: string, v: nat) {
    if v != 0 then exists k :: BestTail(m, x, k) && v == m[k] else NoMatchTail(m, x)
  }

  ghost predicate Undotted(m: Names) {
    forall k :: k in m ==> !Dotted(k)
  }

  // Without trailing dots, a trailing wildcard matches what a leading one does, but for
  // the name itself.
  lemma TailHead(k: string, x: string)
    requires !Dotted(k)
    ensures MatchTail(k, x) <==> Match(k, x) && k != x
  {
    assert k + "." <= x ==> |x| > |k|;
  }

  lemma TailNeedsDot(k: string, x: string)
    ensures MatchTail(k, x) ==> HasDot(x)
  {
    Parted(x);
    if MatchTail(k, x) {
      assert x[|k|] == '.' && x[|k|] in x;
    }
  }

  lemma {:induction false} TailCorrect(wc: Wc, m: Names, n: nat, x: string)
    requires Rep(wc, m, n) && Good(m) && Undotted(m)
    ensures
      var v := LookupTail(wc, x);
      (NoMatchTail(m, x) && (v == 0 || v == wc.value)) || (v != 0 && AnswersTail(m, x, v))
    decreases |x|
  {
    hide Match, Sub, Named, Clean, SubKeys, Dotted;
    var l := First(x);
    Parted(x);
    if !HasDot(x) {
      forall k | k in m
        ensures !MatchTail(k, x)
      {
        TailNeedsDot(k, x);
      }
    } else if l !in wc.hash {
      forall k | k in m
        ensures !MatchTail(k, x)
      {
        TailHead(k, x);
        if Match(k, x) {
          MatchFirst(k, x);
        }
      }
    } else {
      assert RepAt(wc.hash[l], m, l, n);
      match wc.hash[l]
      case Data(v, below) =>
        TailData(m, x, l, v);
      case Table(w, below) =>
        SubGood(m, l);
        SubUndotted(m, l);
        TailCorrect(w, Sub(m, l), n - 1, Rest(x));
        TailTable(m, x, l, w.value, LookupTail(w, Rest(x)));
    }
  }

  lemma SubUndotted(m: Names, l: string)
    requires Undotted(m)
    ensures Undotted(Sub(m, l))
  {
    SubFacts(m, l);
    forall k | k in Sub(m, l)
      ensures !Dotted(k)
    {
      assert !Dotted(l + "." + k);
    }
  }

  lemma TailData(m: Names, x: string, l: string, v: nat)
    requires Good(m) && Undotted(m) && HasDot(x) && First(x) == l && '.' !in l && Sub(m, l) == map[]
    requires v == BaseValue(m, l) && (l in m || l + "." in m)
    ensures v != 0 && AnswersTail(m, x, v)
  {
    MatchBase(l, x);
    TailHead(l, x);
    assert Dotted(l + ".");
    Parted(x);
    forall k | k in m && MatchTail(k, x)
      ensures k == l
    {
      TailHead(k, x);
      Candidates(m, x, k);
    }
    assert BestTail(m, x, l);
  }

  lemma TailTable(m: Names, x: string, l: string, base: nat, v: nat)
    requires Good(m) && Undotted(m) && HasDot(x) && First(x) == l && '.' !in l && base == BaseValue(m, l)
    requires (NoMatchTail(Sub(m, l), Rest(x)) && (v == 0 || v == base))
             || (v != 0 && AnswersTail(Sub(m, l), Rest(x), v))
    ensures
      var y := if v != 0 then v else base;
      if y == 0 then NoMatchTail(m, x) else AnswersTail(m, x, y)
  {
    hide Match, MatchTail, Sub, Named, Clean, First, Rest, HasDot;
    MatchBase(l, x);
    SubFacts(m, l);
    SubUndotted(m, l);
    Parted(x);
    DottedEnd(l);
    forall k | k in m && MatchTail(k, x)
      ensures k == l || (HasDot(k) && k == l + "." + Rest(k) && Rest(k) in Sub(m, l) && MatchTail(Rest(k), Rest(x)))
    {
      TailHead(k, x);
      BelowCandidates(m, x, l, k);
      if k != l {
        TailHead(Rest(k), Rest(x));
      }
    }
    if !NoMatchTail(Sub(m, l), Rest(x)) {
      var s :| BestTail(Sub(m, l), Rest(x), s) && v == Sub(m, l)[s];
      MatchBelow(l, s, x);
      TailHead(s, Rest(x));
      TailHead(l + "." + s, x);
      assert |l + "." + s| > |l|;
      assert (l + "." + s)[|l| + 1..] == s && (l + "." + Rest(x))[|l| + 1..] == Rest(x);
      assert BestTail(m, x, l + "." + s);
    } else if l in m {
      TailHead(l, x);
      assert BestTail(m, x, l);
    }
  }

  lemma DottedEnd(l: string)
    ensures Dotted(l + ".")
  {
  }
}
