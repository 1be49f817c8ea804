// Subsequences, and the elements of a sequence that meet a condition.
module Subsequences {
  /** `a` is `b` with some elements left out: nothing repeated, nothing reordered. */
  predicate Subseq<T(==)>(a: seq<T>, b: seq<T>)
    decreases |b|
  {
    a == [] ||
    (b != [] &&
     var rest := b[..|b|-1];
     Subseq(a, rest) || (a[|a|-1] == b[|b|-1] && Subseq(a[..|a|-1], rest)))
  }

  lemma SkipLast<T>(a: seq<T>, b: seq<T>, x: T)
    requires Subseq(a, b)
    ensures Subseq(a, b + [x])
  {
    assert (b + [x])[..|b|] == b;
  }

  lemma TakeLast<T>(a: seq<T>, b: seq<T>, x: T)
    requires Subseq(a, b)
    ensures Subseq(a + [x], b + [x])
  {
    assert (b + [x])[..|b|] == b && (a + [x])[..|a|] == a;
  }

  lemma {:induction false} InSubseq<T>(a: seq<T>, b: seq<T>, x: T)
    requires Subseq(a, b) && x in a
    ensures x in b
    decreases |b|
  {
    var rest := b[..|b|-1];
    if Subseq(a, rest) {
      InSubseq(a, rest, x);
    } else if x in a[..|a|-1] {
      InSubseq(a[..|a|-1], rest, x);
    }
  }

  lemma {:induction false} Transitive<T>(a: seq<T>, b: seq<T>, c: seq<T>)
    requires Subseq(a, b) && Subseq(b, c)
    ensures Subseq(a, c)
    decreases |c|
  {
    if a != [] {
      var rest := c[..|c|-1];
      if Subseq(b, rest) {
        Transitive(a, b, rest);
      } else {
        var b' := b[..|b|-1];
        if Subseq(a, b') {
          Transitive(a, b', rest);
        } else {
          Transitive(a[..|a|-1], b', rest);
        }
      }
    }
  }

  lemma {:induction false} PrefixIsSubseq<T>(a: seq<T>, b: seq<T>)
    requires a <= b
    ensures Subseq(a, b)
    decreases |b|
  {
    if a != [] {
      var rest := b[..|b|-1];
      if a == b {
        PrefixIsSubseq(rest, rest);
      } else {
        PrefixIsSubseq(a, rest);
      }
    }
  }

  function Keep<T>(p: T -> bool, s: seq<T>): seq<T> {
    if s == [] then []
    else
      var init := Keep(p, s[..|s|-1]);
      if p(s[|s|-1]) then init + [s[|s|-1]] else init
  }

  lemma KeepSnoc<T>(p: T -> bool, s: seq<T>, x: T)
    ensures Keep(p, s + [x]) == if p(x) then Keep(p, s) + [x] else Keep(p, s)
  {
    assert (s + [x])[..|s|] == s;
  }

  lemma {:induction false} InKeep<T>(p: T -> bool, s: seq<T>, x: T)
    ensures x in Keep(p, s) <==> x in s && p(x)
  {
    if s != [] { InKeep(p, s[..|s|-1], x); }
  }

  lemma {:induction false} KeepIsSubseq<T>(p: T -> bool, s: seq<T>)
    ensures Subseq(Keep(p, s), s)
  {
    if s != [] {
      var init, last := s[..|s|-1], s[|s|-1];
      KeepIsSubseq(p, init);
      assert s == init + [last];
      SkipLast(Keep(p, init), init, last);
      TakeLast(Keep(p, init), init, last);
    }
  }

  lemma {:induction false} KeepMonotone<T>(p: T -> bool, a: seq<T>, b: seq<T>)
    requires Subseq(a, b)
    ensures Subseq(Keep(p, a), Keep(p, b))
    decreases |b|
  {
    if a != [] {
      var b', y := b[..|b|-1], b[|b|-1];
      if Subseq(a, b') {
        KeepMonotone(p, a, b');
        if p(y) { SkipLast(Keep(p, a), Keep(p, b'), y); }
      } else {
        KeepMonotone(p, a[..|a|-1], b');
        if p(y) { TakeLast(Keep(p, a[..|a|-1]), Keep(p, b'), y); }
      }
    }
  }

  /** Keeping less after keeping more is keeping less. */
  lemma {:induction false} KeepTwice<T(!new)>(p: T -> bool, q: T -> bool, s: seq<T>)
    requires forall x :: p(x) ==> q(x)
    ensures Keep(p, Keep(q, s)) == Keep(p, s)
  {
    if s != [] {
      var init, last := s[..|s|-1], s[|s|-1];
      KeepTwice(p, q, init);
      if q(last) { KeepSnoc(p, Keep(q, init), last); }
    }
  }

  lemma {:induction false} KeepPrefix<T>(p: T -> bool, a: seq<T>, b: seq<T>)
    requires a <= b
    ensures Keep(p, a) <= Keep(p, b)
    decreases |b|
  {
    if a != b { KeepPrefix(p, a, b[..|b|-1]); }
  }
}
