// Domain names as strings of labels: first and last label, names turned round label by
// label, and the order of ngx_dns_strcmp.

module DomainNames {
  // -------- the first label --------

  // The position of the first dot, or the length.
  function DotAt(s: string): (n: nat)
    ensures n <= |s| && '.' !in s[..n] && (n < |s| ==> s[n] == '.')
  {
    if s == [] || s[0] == '.' then 0
    else
      assert s[1..][..DotAt(s[1..])] == s[1..1 + DotAt(s[1..])];
      1 + DotAt(s[1..])
  }

  predicate HasDot(s: string) {
    DotAt(s) < |s|
  }

  function First(s: string): string {
    s[..DotAt(s)]
  }

  function Rest(s: string): string
    requires HasDot(s)
  {
    s[DotAt(s) + 1..]
  }

  lemma {:induction false} DotAtIs(s: string, n: nat)
    requires n <= |s| && '.' !in s[..n] && (n < |s| ==> s[n] == '.')
    ensures DotAt(s) == n
  {
    if n > 0 {
      assert s[0] in s[..n] && s[1..][..n - 1] == s[1..n];
      assert forall c :: c in s[1..n] ==> c in s[..n];
      DotAtIs(s[1..], n - 1);
    }
  }

  lemma Joined(l: string, t: string)
    requires '.' !in l
    ensures HasDot(l + "." + t) && First(l + "." + t) == l && Rest(l + "." + t) == t
  {
    var s := l + "." + t;
    assert s[..|l|] == l;
    DotAtIs(s, |l|);
  }

  lemma Single(l: string)
    requires '.' !in l
    ensures !HasDot(l) && First(l) == l
  {
    assert l[..|l|] == l;
    DotAtIs(l, |l|);
  }

  lemma Parted(s: string)
    ensures '.' !in First(s)
    ensures if HasDot(s) then s == First(s) + "." + Rest(s) && |Rest(s)| < |s| else s == First(s) && '.' !in s
  {
  }

  // -------- turning a name round --------

  function RevLabels(s: string): string
    decreases |s|
  {
    if HasDot(s) then RevLabels(Rest(s)) + "." + First(s) else s
  }

  lemma RevOf(f: string, t: string)
    requires '.' !in f
    ensures RevLabels(f + "." + t) == RevLabels(t) + "." + f
  {
    Joined(f, t);
  }

  lemma {:induction false} RevJoined(a: string, b: string)
    ensures RevLabels(a + "." + b) == RevLabels(b) + "." + RevLabels(a)
    decreases |a|
  {
    Parted(a);
    if HasDot(a) {
      RevStep(First(a), Rest(a), b);
    } else {
      RevOf(a, b);
    }
  }

  lemma RevStep(f: string, t: string, b: string)
    requires '.' !in f
    ensures RevLabels((f + "." + t) + "." + b) == RevLabels(b) + "." + RevLabels(f + "." + t)
    decreases |f + "." + t|, 0
  {
    hide RevLabels, DotAt;
    RevJoined(t, b);
    RevOf(f, t);
    RevOf(f, t + "." + b);
    assert (f + "." + t) + "." + b == f + "." + (t + "." + b);
    assert RevLabels(b) + "." + RevLabels(t) + "." + f == RevLabels(b) + "." + (RevLabels(t) + "." + f);
  }

  lemma {:induction false} RevRev(s: string)
    ensures RevLabels(RevLabels(s)) == s
    decreases |s|
  {
    Parted(s);
    if HasDot(s) {
      RevRev(Rest(s));
      RevJoined(RevLabels(Rest(s)), First(s));
      Single(First(s));
    }
  }

  ghost predicate EndsWith(s: string, t: string) {
    |t| <= |s| && s[|s| - |t|..] == t
  }

  // A name below the domain d, turned round, starts with d turned round and a dot.
  lemma BelowRev(name: string, d: string)
    ensures EndsWith(name, "." + d) <==> RevLabels(d) + "." <= RevLabels(name)
  {
    hide RevLabels;
    if EndsWith(name, "." + d) {
      var x := name[..|name| - |d| - 1];
      assert name == x + "." + d;
      RevJoined(x, d);
    }
    if RevLabels(d) + "." <= RevLabels(name) {
      RevBelow(name, d, RevLabels(name)[|RevLabels(d)| + 1..]);
    }
  }

  lemma RevBelow(name: string, d: string, y: string)
    requires RevLabels(name) == RevLabels(d) + "." + y
    ensures EndsWith(name, "." + d)
  {
    hide RevLabels;
    RevJoined(RevLabels(d), y);
    RevRev(name);
    RevRev(d);
    assert name == RevLabels(y) + ("." + d);
  }

  lemma SameRev(s: string, t: string)
    ensures s == t <==> RevLabels(s) == RevLabels(t)
  {
    RevRev(s);
    RevRev(t);
  }

  // -------- the order of ngx_dns_strcmp --------

  // The dot is the lowest character.
  function Rank(c: char): int {
    if c == '.' then ' ' as int else c as int
  }

  // Domain names have no spaces or control characters, and are lower case here.
  predicate Clean(s: string) {
    forall i :: 0 <= i < |s| ==> s[i] > ' '
  }

  predicate Less(s: string, t: string) {
    if s == [] then t != []
    else if t == [] then false
    else if s[0] == t[0] then Less(s[1..], t[1..])
    else Rank(s[0]) < Rank(t[0])
  }

  lemma {:induction false} LessPrefixed(p: string, s: string, t: string)
    ensures Less(p + s, p + t) <==> Less(s, t)
  {
    if p == [] {
      assert p + s == s && p + t == t;
    } else {
      assert (p + s)[1..] == p[1..] + s && (p + t)[1..] == p[1..] + t;
      LessPrefixed(p[1..], s, t);
    }
  }

  lemma {:induction false} NotLess(s: string)
    ensures !Less(s, s)
  {
    if s != [] {
      NotLess(s[1..]);
    }
  }

  lemma {:induction false} LessAntisymmetric(s: string, t: string)
    requires Less(s, t)
    ensures !Less(t, s) && s != t
  {
    if s != [] && s[0] == t[0] {
      LessAntisymmetric(s[1..], t[1..]);
    }
  }

  lemma {:induction false} LessTotal(s: string, t: string)
    requires Clean(s) && Clean(t)
    ensures s == t || Less(s, t) || Less(t, s)
  {
    if s != [] && t != [] {
      if s[0] == t[0] {
        assert forall i :: 0 <= i < |s[1..]| ==> s[1..][i] == s[i + 1];
        assert forall i :: 0 <= i < |t[1..]| ==> t[1..][i] == t[i + 1];
        LessTotal(s[1..], t[1..]);
        assert s == [s[0]] + s[1..] && t == [t[0]] + t[1..];
      } else {
        RankApart(s[0], t[0]);
      }
    }
  }

  lemma RankApart(c: char, d: char)
    requires c > ' ' && d > ' ' && c != d
    ensures Rank(c) != Rank(d)
  {
  }

  lemma {:induction false} LessTransitive(s: string, t: string, u: string)
    requires Less(s, t) && Less(t, u) && Clean(s) && Clean(t) && Clean(u)
    ensures Less(s, u)
  {
    if s != [] {
      if s[0] == t[0] && t[0] == u[0] {
        assert forall i :: 0 <= i < |s[1..]| ==> s[1..][i] == s[i + 1];
        assert forall i :: 0 <= i < |t[1..]| ==> t[1..][i] == t[i + 1];
        assert forall i :: 0 <= i < |u[1..]| ==> u[1..][i] == u[i + 1];
        LessTransitive(s[1..], t[1..], u[1..]);
      } else {
        assert Rank(s[0]) < Rank(u[0]);
      }
    }
  }

  // The first difference decides, and the dot comes before all other characters.
  lemma LessFirst(p: string, c: char, s: string, d: char, t: string)
    requires c != d && c > ' ' && d > ' '
    ensures Less(p + ([c] + s), p + ([d] + t)) <==> c == '.' || (d != '.' && c < d)
  {
    LessPrefixed(p, [c] + s, [d] + t);
  }

  // ngx_dns_strcmp orders names strictly and totally.
  lemma NamesOrdered(s: string, t: string, u: string)
    requires Clean(s) && Clean(t) && Clean(u)
    ensures !Less(s, s)
    ensures s == t || Less(s, t) || Less(t, s)
    ensures Less(s, t) ==> s != t && !Less(t, s)
    ensures Less(s, t) && Less(t, u) ==> Less(s, u)
  {
    NotLess(s);
    LessTotal(s, t);
    if Less(s, t) {
      LessAntisymmetric(s, t);
      if Less(t, u) {
        LessTransitive(s, t, u);
      }
    }
  }

  // Between two names with the same first label there are only names with that label.
  lemma {:induction false} Between(l: string, s: string, u: string, t: string)
    requires '.' !in l && First(s) == l && First(t) == l && Less(s, u) && Less(u, t)
    requires Clean(s) && Clean(u) && Clean(t)
    ensures First(u) == l
  {
    Parted(s);
    Parted(t);
    if l == [] {
      if u != [] {
        assert s == [] || s[0] == '.';
        assert t != [] && t[0] == '.';
        assert u[0] == '.';
      }
    } else {
      Parted(u);
      assert s[0] == l[0] && t[0] == l[0] && u != [];
      assert u[0] == l[0];
      FirstTail(s);
      FirstTail(t);
      FirstTail(u);
      assert l[0] in l && forall c :: c in l[1..] ==> c in l;
      Between(l[1..], s[1..], u[1..], t[1..]);
      assert First(u) == [u[0]] + First(u[1..]) && l == [l[0]] + l[1..];
    }
  }

  lemma FirstTail(s: string)
    requires s != [] && s[0] != '.'
    ensures First(s) == [s[0]] + First(s[1..]) && (Clean(s) ==> Clean(s[1..]))
  {
    assert s[1..][..DotAt(s[1..])] == s[1..1 + DotAt(s[1..])];
  }

  // A name comes before the longer ones it starts.
  lemma {:induction false} PrefixLess(s: string, t: string)
    requires s <= t && s != t
    ensures Less(s, t)
  {
    if s != [] {
      assert s[1..] <= t[1..] && s == [s[0]] + s[1..] && t == [t[0]] + t[1..];
      PrefixLess(s[1..], t[1..]);
    }
  }
}
