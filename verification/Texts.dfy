/** Strings: their order, splitting at a character and joining. */
module Texts {

  // ----- the order of std::string and of Python's str

  predicate Less(a: string, b: string) {
    b != [] && (a == [] || a[0] < b[0] || (a[0] == b[0] && Less(a[1..], b[1..])))
  }

  lemma {:induction false} LessAsymmetric(a: string, b: string)
    ensures !(Less(a, b) && (Less(b, a) || a == b))
  {
    if a != [] && b != [] {
      LessAsymmetric(a[1..], b[1..]);
    }
  }

  lemma {:induction false} LessTotal(a: string, b: string)
    ensures Less(a, b) || Less(b, a) || a == b
  {
    if a != [] && b != [] {
      LessTotal(a[1..], b[1..]);
      assert a == [a[0]] + a[1..] && b == [b[0]] + b[1..];
    }
  }

  lemma {:induction false} LessTransitive(a: string, b: string, c: string)
    requires Less(a, b) && Less(b, c)
    ensures Less(a, c)
  {
    if a != [] && a[0] == b[0] == c[0] {
      LessTransitive(a[1..], b[1..], c[1..]);
    }
  }

  /** The strings agree before `k`, where `a` ends or has the smaller character. */
  predicate DifferAt(a: string, b: string, k: nat) {
    && k <= |a| && k < |b| && a[..k] == b[..k]
    && (k == |a| || a[k] < b[k])
  }

  /** The order is that of the first difference. */
  lemma {:induction false} LessIff(a: string, b: string)
    ensures Less(a, b) <==> exists k: nat :: DifferAt(a, b, k)
  {
    if b != [] && (a == [] || a[0] < b[0]) {
      assert DifferAt(a, b, 0);
    } else if b != [] && a[0] == b[0] {
      LessIff(a[1..], b[1..]);
      if k: nat :| DifferAt(a[1..], b[1..], k) {
        assert a[..k + 1] == [a[0]] + a[1..][..k] && b[..k + 1] == [b[0]] + b[1..][..k];
        assert DifferAt(a, b, k + 1);
      }
      if k: nat :| DifferAt(a, b, k) {
        assert k > 0;
        assert a[1..][..k - 1] == a[..k][1..] && b[1..][..k - 1] == b[..k][1..];
        assert DifferAt(a[1..], b[1..], k - 1);
      }
    } else {
      NoDifference(a, b);
    }
  }

  lemma NoDifference(a: string, b: string)
    requires b == [] || (a != [] && b[0] < a[0])
    ensures forall k: nat :: !DifferAt(a, b, k)
  {
    forall k: nat ensures !DifferAt(a, b, k) {
      if 0 < k <= |a| && k <= |b| {
        assert a[..k][0] == a[0] && b[..k][0] == b[0];
      }
    }
  }

  // ----- splitting and joining

  lemma Associative<T>(a: seq<T>, b: seq<T>, c: seq<T>)
    ensures a + b + c == a + (b + c)
  {
  }

  predicate Without(s: string, c: char) {
    c !in s
  }

  /** Python's s.split(c). */
  function Split(s: string, c: char): (r: seq<string>)
    ensures r != [] && forall p | p in r :: Without(p, c)
  {
    if s == [] then [[]]
    else
      var r := Split(s[1..], c);
      assert r[0] in r;
      if s[0] == c then [[]] + r else [[s[0]] + r[0]] + r[1..]
  }

  /** Python's c.join(ps). */
  function Join(ps: seq<string>, c: char): string {
    if ps == [] then []
    else if |ps| == 1 then ps[0]
    else ps[0] + [c] + Join(ps[1..], c)
  }

  lemma {:induction false} SplitWhole(s: string, c: char)
    requires Without(s, c)
    ensures Split(s, c) == [s]
  {
    if s != [] {
      assert s[0] in s && Without(s[1..], c);
      SplitWhole(s[1..], c);
      assert [s[0]] + s[1..] == s;
    }
  }

  /** The first piece and the pieces after the separator. */
  lemma {:induction false} SplitFirst(a: string, c: char, rest: string)
    requires Without(a, c)
    ensures Split(a + [c] + rest, c) == [a] + Split(rest, c)
  {
    var s := a + [c] + rest;
    if a == [] {
      assert s == [c] + rest;
    } else {
      assert a[0] in a && Without(a[1..], c);
      assert s[1..] == a[1..] + [c] + rest;
      SplitFirst(a[1..], c, rest);
      assert [a[0]] + a[1..] == a;
    }
  }

  /** Joining pieces and splitting again. */
  lemma {:induction false} SplitJoin(ps: seq<string>, c: char)
    requires ps != [] && forall p | p in ps :: Without(p, c)
    ensures Split(Join(ps, c), c) == ps
  {
    assert ps[0] in ps;
    if |ps| == 1 {
      SplitWhole(ps[0], c);
    } else {
      SplitFirst(ps[0], c, Join(ps[1..], c));
      SplitJoin(ps[1..], c);
      assert [ps[0]] + ps[1..] == ps;
    }
  }

  lemma {:induction false} JoinWithout(ps: seq<string>, c: char, d: char)
    requires c != d && forall p | p in ps :: Without(p, d)
    ensures Without(Join(ps, c), d)
  {
    if ps != [] {
      assert ps[0] in ps;
      JoinWithout(ps[1..], c, d);
    }
  }
}
