/** Facts about sequences and the multisets of their elements. */
module Sequences {
  lemma RemoveOne<T>(s: seq<T>, k: nat)
    requires k < |s|
    ensures multiset(s[..k] + s[k + 1..]) == multiset(s) - multiset{s[k]}
  {
    assert s == s[..k] + [s[k]] + s[k + 1..];
  }

  function Mapped<A, B>(f: A -> B, s: seq<A>): seq<B> {
    seq(|s|, i requires 0 <= i < |s| => f(s[i]))
  }

  /** Mapping a reordered sequence gives a reordered result. */
  lemma {:induction false} MappedIgnoresOrder<A, B>(f: A -> B, a: seq<A>, b: seq<A>)
    requires multiset(a) == multiset(b)
    ensures multiset(Mapped(f, a)) == multiset(Mapped(f, b))
    decreases |a|
  {
    if a == [] {
      assert |multiset(b)| == 0;
    } else {
      var n := |a| - 1;
      assert a[n] in multiset(b);
      var k :| 0 <= k < |b| && b[k] == a[n];
      var front, rest := a[..n], b[..k] + b[k + 1..];
      RemoveOne(a, n);
      RemoveOne(b, k);
      assert a[..n] + a[n + 1..] == front;
      MappedIgnoresOrder(f, front, rest);
      MappedRemove(f, a, n);
      MappedRemove(f, b, k);
    }
  }

  lemma MappedRemove<A, B>(f: A -> B, s: seq<A>, k: nat)
    requires k < |s|
    ensures multiset(Mapped(f, s)) == multiset(Mapped(f, s[..k] + s[k + 1..])) + multiset{f(s[k])}
  {
    var image := Mapped(f, s);
    RemoveOne(image, k);
    assert image[..k] + image[k + 1..] == Mapped(f, s[..k] + s[k + 1..]);
    assert image[k] in multiset(image);
  }
}
