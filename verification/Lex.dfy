/** Python's order on tuples of integers and on strings. */
module Lex {
  predicate Less(a: seq<int>, b: seq<int>) {
    if b == [] then false
    else if a == [] then true
    else a[0] < b[0] || (a[0] == b[0] && Less(a[1..], b[1..]))
  }

  predicate Le(a: seq<int>, b: seq<int>) {
    !Less(b, a)
  }

  /** The sequences agree up to k, and there `a` ends first or goes on with something smaller. */
  ghost predicate SmallerFrom(a: seq<int>, b: seq<int>, k: nat) {
    k <= |a| && k < |b| && a[..k] == b[..k] && (k == |a| || a[k] < b[k])
  }

  /** `Less` is decided where two sequences first differ. */
  lemma {:induction false} LessMeans(a: seq<int>, b: seq<int>)
    ensures Less(a, b) <==> exists k: nat :: SmallerFrom(a, b, k)
  {
    if a == [] && b != [] {
      assert SmallerFrom(a, b, 0);
    } else if a != [] && b != [] {
      LessMeans(a[1..], b[1..]);
      if a[0] < b[0] {
        assert SmallerFrom(a, b, 0);
      } else if k: nat :| SmallerFrom(a[1..], b[1..], k) {
        SmallerTails(a, b, k);
      }
      if k: nat :| SmallerFrom(a, b, k) && k > 0 {
        SmallerTails(a, b, k - 1);
      }
    }
  }

  lemma SmallerTails(a: seq<int>, b: seq<int>, k: nat)
    requires a != [] && b != []
    ensures SmallerFrom(a, b, k + 1) <==> a[0] == b[0] && SmallerFrom(a[1..], b[1..], k)
  {
    if k + 1 <= |a| && k + 1 <= |b| {
      assert a[..k + 1] == [a[0]] + a[1..][..k] && b[..k + 1] == [b[0]] + b[1..][..k];
    }
  }

  /** A string compares as its sequence of code points. */
  function Ords(s: string): (r: seq<int>)
    ensures |r| == |s| && forall i :: 0 <= i < |s| ==> r[i] == s[i] as int
  {
    seq(|s|, i requires 0 <= i < |s| => s[i] as int)
  }

  predicate StrLe(a: string, b: string) {
    Le(Ords(a), Ords(b))
  }

  lemma {:induction false} Irreflexive(a: seq<int>)
    ensures !Less(a, a)
  {
    if a != [] {
      Irreflexive(a[1..]);
    }
  }

  lemma {:induction false} Trichotomy(a: seq<int>, b: seq<int>)
    ensures Less(a, b) || Less(b, a) || a == b
    ensures !(Less(a, b) && Less(b, a))
    ensures !Less(a, a)
  {
    Irreflexive(a);
    if a != [] && b != [] {
      Trichotomy(a[1..], b[1..]);
      assert a[0] == b[0] && a[1..] == b[1..] ==> a == b by {
        assert a == [a[0]] + a[1..] && b == [b[0]] + b[1..];
      }
    }
  }

  lemma {:induction false} LessTransitive(a: seq<int>, b: seq<int>, c: seq<int>)
    requires Less(a, b) && Less(b, c)
    ensures Less(a, c)
  {
    if a != [] {
      if a[0] == b[0] && b[0] == c[0] {
        LessTransitive(a[1..], b[1..], c[1..]);
      }
    }
  }

  lemma LeTotalOrder(a: seq<int>, b: seq<int>, c: seq<int>)
    ensures Le(a, b) || Le(b, a)
    ensures Le(a, b) && Le(b, c) ==> Le(a, c)
    ensures Le(a, b) && Le(b, a) ==> a == b
  {
    Trichotomy(a, b);
    Trichotomy(b, c);
    Trichotomy(a, c);
    if Le(a, b) && Le(b, c) && Less(c, a) {
      if a != b && b != c {
        LessTransitive(a, b, c);
      }
    }
  }

  lemma StrLeTotalOrder(a: string, b: string, c: string)
    ensures StrLe(a, b) || StrLe(b, a)
    ensures StrLe(a, b) && StrLe(b, c) ==> StrLe(a, c)
    ensures StrLe(a, b) && StrLe(b, a) ==> a == b
  {
    LeTotalOrder(Ords(a), Ords(b), Ords(c));
    if Ords(a) == Ords(b) {
      forall i | 0 <= i < |a| ensures a[i] == b[i] {
        assert Ords(a)[i] == Ords(b)[i];
      }
    }
  }

  /** The same for strings, by their characters. */
  ghost predicate StrSmallerFrom(a: string, b: string, k: nat) {
    k <= |a| && k < |b| && a[..k] == b[..k] && (k == |a| || a[k] < b[k])
  }

  lemma StrLeMeans(a: string, b: string)
    ensures StrLe(a, b) <==> a == b || exists k: nat :: StrSmallerFrom(a, b, k)
  {
    Trichotomy(Ords(a), Ords(b));
    LessMeans(Ords(a), Ords(b));
    StrLeTotalOrder(a, b, a);
    forall k: nat ensures SmallerFrom(Ords(a), Ords(b), k) <==> StrSmallerFrom(a, b, k) {
      SmallerOrds(a, b, k);
    }
  }

  lemma SmallerOrds(a: string, b: string, k: nat)
    ensures SmallerFrom(Ords(a), Ords(b), k) <==> StrSmallerFrom(a, b, k)
  {
    if k <= |a| && k < |b| {
      assert Ords(a)[..k] == Ords(a[..k]) && Ords(b)[..k] == Ords(b[..k]);
      if Ords(a)[..k] == Ords(b)[..k] {
        forall i | 0 <= i < k ensures a[i] == b[i] {
          assert Ords(a)[..k][i] == Ords(b)[..k][i];
        }
      }
    }
  }

  /** Between words of one length, a difference decides before anything appended to them. */
  lemma {:induction false} LessExtends(a: seq<int>, b: seq<int>, x: seq<int>, y: seq<int>)
    requires |a| == |b| && Less(a, b)
    ensures Less(a + x, b + y)
  {
    assert (a + x)[1..] == a[1..] + x && (b + y)[1..] == b[1..] + y;
    if a[0] == b[0] {
      LessExtends(a[1..], b[1..], x, y);
    }
  }
}
