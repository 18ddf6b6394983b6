/** Order-preserving selection from a sequence: the boolean-mask row
    selection `frame[mask]` and `frame.head(n)` of a data table whose rows
    are modelled as a sequence. */
module Sequences {

  /** `a` is obtained from `b` by deleting elements, keeping the order of the rest. */
  ghost predicate SubseqOf<T(!new)>(a: seq<T>, b: seq<T>)
    decreases |b|
  {
    |a| == 0 ||
    (|b| > 0 && ((a[0] == b[0] && SubseqOf(a[1..], b[1..])) || SubseqOf(a, b[1..])))
  }

  /** `r` holds exactly the elements of `s` satisfying `p`, each as often as in `s`,
      in the order of `s`. */
  ghost predicate Filtered<T(!new)>(r: seq<T>, s: seq<T>, p: T -> bool)
  {
    && SubseqOf(r, s)
    && forall x :: multiset(r)[x] == (if p(x) then multiset(s)[x] else 0)
  }

  /** Row selection with a boolean mask computed row by row from `p`. */
  function KeepIf<T(!new)>(s: seq<T>, p: T -> bool): (r: seq<T>)
    ensures |r| <= |s|
    ensures forall i :: 0 <= i < |r| ==> p(r[i])
    ensures forall x :: x in r <==> x in s && p(x)
    ensures Filtered(r, s, p)
  {
    if |s| == 0 then []
    else
      assert s == [s[0]] + s[1..];
      var rest := KeepIf(s[1..], p);
      if p(s[0]) then
        assert ([s[0]] + rest)[1..] == rest;
        [s[0]] + rest
      else
        rest
  }

  /** Selection from a two-element sequence, one membership test per element. */
  lemma KeepIfPair<T(!new)>(a: T, b: T, p: T -> bool)
    ensures KeepIf([a, b], p) == (if p(a) then [a] else []) + (if p(b) then [b] else [])
  {
    assert [a, b][1..] == [b];
    assert [b][1..] == [];
  }

  lemma {:induction false} SubseqOfSelf<T(!new)>(s: seq<T>)
    ensures SubseqOf(s, s)
    decreases |s|
  {
    if |s| > 0 {
      SubseqOfSelf(s[1..]);
    }
  }

  lemma {:induction false} SubseqMultiset<T(!new)>(a: seq<T>, b: seq<T>)
    requires SubseqOf(a, b)
    ensures multiset(a) <= multiset(b)
    decreases |b|
  {
    if |a| > 0 {
      assert b == [b[0]] + b[1..];
      if a[0] == b[0] && SubseqOf(a[1..], b[1..]) {
        SubseqMultiset(a[1..], b[1..]);
        assert a == [a[0]] + a[1..];
      } else {
        SubseqMultiset(a, b[1..]);
      }
    }
  }

  /** The selection specification determines the result: two sequences that both
      satisfy `Filtered(_, s, p)` are equal. */
  lemma {:induction false} FilteredUnique<T(!new)>(a: seq<T>, b: seq<T>, s: seq<T>, p: T -> bool)
    requires Filtered(a, s, p) && Filtered(b, s, p)
    ensures a == b
    decreases |s|
  {
    if |s| == 0 {
    } else {
      var t := s[1..];
      assert s == [s[0]] + t;
      FilteredTail(a, s, p);
      FilteredTail(b, s, p);
      if p(s[0]) {
        FilteredUnique(a[1..], b[1..], t, p);
        assert a == [a[0]] + a[1..];
        assert b == [b[0]] + b[1..];
      } else {
        FilteredUnique(a, b, t, p);
      }
    }
  }

  /** One step of `FilteredUnique`: peel the head of `s` off. */
  lemma FilteredTail<T(!new)>(a: seq<T>, s: seq<T>, p: T -> bool)
    requires |s| > 0 && Filtered(a, s, p)
    ensures p(s[0]) ==> |a| > 0 && a[0] == s[0] && Filtered(a[1..], s[1..], p)
    ensures !p(s[0]) ==> Filtered(a, s[1..], p)
  {
    var t := s[1..];
    assert s == [s[0]] + t;
    if p(s[0]) {
      assert multiset(a)[s[0]] > 0;
      assert |a| > 0;
      if !(a[0] == s[0] && SubseqOf(a[1..], t)) {
        SubseqMultiset(a, t);
        assert false;
      }
      assert a == [a[0]] + a[1..];
      forall x
        ensures multiset(a[1..])[x] == (if p(x) then multiset(t)[x] else 0)
      {
        assert multiset(a)[x] == multiset{a[0]}[x] + multiset(a[1..])[x];
      }
    } else {
      assert !(|a| > 0 && a[0] == s[0]) by {
        if |a| > 0 { assert a[0] in multiset(a); }
      }
    }
  }

  /** Selecting twice with the same mask predicate selects nothing further. */
  lemma {:induction false} KeepIfIdempotent<T(!new)>(s: seq<T>, p: T -> bool)
    ensures KeepIf(KeepIf(s, p), p) == KeepIf(s, p)
    decreases |s|
  {
    if |s| > 0 {
      KeepIfIdempotent(s[1..], p);
      var rest := KeepIf(s[1..], p);
      if p(s[0]) {
        assert ([s[0]] + rest)[1..] == rest;
      }
    }
  }

  lemma {:induction false} SubseqTrans<T(!new)>(a: seq<T>, b: seq<T>, c: seq<T>)
    requires SubseqOf(a, b) && SubseqOf(b, c)
    ensures SubseqOf(a, c)
    decreases |c|
  {
    if |a| > 0 {
      // b is non-empty, hence so is c
      if b[0] == c[0] && SubseqOf(b[1..], c[1..]) {
        if a[0] == b[0] && SubseqOf(a[1..], b[1..]) {
          SubseqTrans(a[1..], b[1..], c[1..]);
        } else {
          SubseqTrans(a, b[1..], c[1..]);
        }
      } else {
        SubseqTrans(a, b, c[1..]);
      }
    }
  }

  lemma {:induction false} PrefixIsSubseq<T(!new)>(s: seq<T>, k: nat)
    requires k <= |s|
    ensures SubseqOf(s[..k], s)
    decreases |s|
  {
    if k > 0 {
      PrefixIsSubseq(s[1..], k - 1);
      assert s[..k][1..] == s[1..][..k - 1];
    }
  }

  /** `frame.head(n)`: the first `n` rows; for negative `n`, all rows but the last `-n`. */
  function Head<T(!new)>(s: seq<T>, n: int): (r: seq<T>)
    ensures 0 <= n ==> |r| == (if n < |s| then n else |s|)
    ensures n < 0 ==> |r| == (if |s| + n > 0 then |s| + n else 0)
    ensures r == s[..|r|]
  {
    var k := if 0 <= n then n else |s| + n;
    if k <= 0 then [] else if k < |s| then s[..k] else s
  }
}
