/** Array operations of JavaScript used by the picker, over Dafny sequences. */
module Seqs {
  import opened Wrappers

  /** `s.filter(f)`: the elements of `s` that satisfy `f`, in their order. */
  function Filter<T(==)>(f: T -> bool, s: seq<T>): (r: seq<T>)
    ensures |r| <= |s|
    ensures forall i :: 0 <= i < |r| ==> r[i] in s && f(r[i])
    ensures forall i :: 0 <= i < |s| && f(s[i]) ==> s[i] in r
  {
    if s == [] then [] else (if f(s[0]) then [s[0]] else []) + Filter(f, s[1..])
  }

  lemma {:induction false} FilterAppend<T>(f: T -> bool, a: seq<T>, b: seq<T>)
    ensures Filter(f, a + b) == Filter(f, a) + Filter(f, b)
  {
    if a == [] {
      assert a + b == b;
    } else {
      assert (a + b)[1..] == a[1..] + b;
      FilterAppend(f, a[1..], b);
    }
  }

  /** Filtering keeps every occurrence of an accepted value and drops every rejected one. */
  lemma {:induction false} FilterMultiset<T>(f: T -> bool, s: seq<T>, x: T)
    ensures multiset(Filter(f, s))[x] == if f(x) then multiset(s)[x] else 0
  {
    if s != [] {
      FilterMultiset(f, s[1..], x);
      assert multiset(s) == multiset{s[0]} + multiset(s[1..]) by {
        assert s == [s[0]] + s[1..];
      }
      if f(s[0]) {
        assert multiset(Filter(f, s)) == multiset{s[0]} + multiset(Filter(f, s[1..]));
      } else {
        assert Filter(f, s) == Filter(f, s[1..]);
      }
    }
  }

  /** `a` is obtained from `b` by deleting elements, keeping the order of the rest. */
  predicate IsSubsequence<T(==)>(a: seq<T>, b: seq<T>)
    decreases |b|
  {
    if a == [] then true
    else if b == [] then false
    else (a[0] == b[0] && IsSubsequence(a[1..], b[1..])) || IsSubsequence(a, b[1..])
  }

  lemma {:induction false} SubsequenceReflexive<T>(s: seq<T>)
    ensures IsSubsequence(s, s)
  {
    if s != [] {
      SubsequenceReflexive(s[1..]);
    }
  }

  lemma {:induction false} SubsequenceMembers<T>(a: seq<T>, b: seq<T>)
    requires IsSubsequence(a, b)
    ensures |a| <= |b|
    ensures forall i :: 0 <= i < |a| ==> a[i] in b
    decreases |b|
  {
    if a != [] {
      if a[0] == b[0] && IsSubsequence(a[1..], b[1..]) {
        SubsequenceMembers(a[1..], b[1..]);
        assert forall i :: 1 <= i < |a| ==> a[i] == a[1..][i - 1];
      } else {
        SubsequenceMembers(a, b[1..]);
      }
    }
  }

  lemma {:induction false} SubsequenceTransitive<T>(a: seq<T>, b: seq<T>, c: seq<T>)
    requires IsSubsequence(a, b) && IsSubsequence(b, c)
    ensures IsSubsequence(a, c)
    decreases |c|
  {
    if a == [] {
    } else if b == [] {
    } else if c == [] {
    } else if b[0] == c[0] && IsSubsequence(b[1..], c[1..]) {
      if a[0] == b[0] && IsSubsequence(a[1..], b[1..]) {
        SubsequenceTransitive(a[1..], b[1..], c[1..]);
      } else {
        SubsequenceTransitive(a, b[1..], c[1..]);
      }
    } else {
      SubsequenceTransitive(a, b, c[1..]);
    }
  }

  lemma {:induction false} FilterIsSubsequence<T>(f: T -> bool, s: seq<T>)
    ensures IsSubsequence(Filter(f, s), s)
  {
    if s != [] {
      FilterIsSubsequence(f, s[1..]);
      var r := Filter(f, s);
      if f(s[0]) {
        assert r[0] == s[0] && r[1..] == Filter(f, s[1..]);
      } else {
        assert r == Filter(f, s[1..]);
      }
    }
  }

  /** `s.splice(k, 1)`: `s` without its element at index `k`. */
  function RemoveAt<T>(s: seq<T>, k: nat): (r: seq<T>)
    requires k < |s|
    ensures |r| == |s| - 1
  {
    s[..k] + s[k + 1..]
  }

  /** Removing one element gives back the rest of the multiset. */
  lemma RemoveAtMultiset<T>(s: seq<T>, k: nat)
    requires k < |s|
    ensures multiset(RemoveAt(s, k)) + multiset{s[k]} == multiset(s)
  {
    assert s == s[..k] + [s[k]] + s[k + 1..];
  }

  lemma {:induction false} RemoveAtIsSubsequence<T>(s: seq<T>, k: nat)
    requires k < |s|
    ensures IsSubsequence(RemoveAt(s, k), s)
    decreases k
  {
    if k == 0 {
      assert RemoveAt(s, k) == s[1..];
      SubsequenceReflexive(s[1..]);
    } else {
      RemoveAtIsSubsequence(s[1..], k - 1);
      assert RemoveAt(s, k)[0] == s[0];
      assert RemoveAt(s, k)[1..] == RemoveAt(s[1..], k - 1);
    }
  }

  /** `s.at(index)`: a negative index counts back from the end; out of range gives `undefined`. */
  function At<T>(s: seq<T>, index: int): (r: Option<T>)
    ensures 0 <= index < |s| ==> r == Some(s[index])
    ensures -|s| <= index < 0 ==> r == Some(s[|s| + index])
    ensures (index < -|s| || |s| <= index) ==> r == None
    ensures r.Some? ==> r.value in s
  {
    var k := if index < 0 then |s| + index else index;
    if 0 <= k < |s| then Some(s[k]) else None
  }

  /** The values held by the defined entries of `ps`, in order. */
  function Present<T>(ps: seq<Option<T>>): (r: seq<T>)
    ensures |r| <= |ps|
  {
    if ps == [] then []
    else (if ps[0].Some? then [ps[0].value] else []) + Present(ps[1..])
  }

  lemma {:induction false} PresentAppend<T>(a: seq<Option<T>>, b: seq<Option<T>>)
    ensures Present(a + b) == Present(a) + Present(b)
  {
    if a == [] {
      assert a + b == b;
    } else {
      assert (a + b)[0] == a[0] && (a + b)[1..] == a[1..] + b;
      PresentAppend(a[1..], b);
    }
  }

  /** A filter that rejects nothing returns its input. */
  lemma {:induction false} FilterAll<T>(f: T -> bool, s: seq<T>)
    requires forall i :: 0 <= i < |s| ==> f(s[i])
    ensures Filter(f, s) == s
  {
    if s != [] {
      FilterAll(f, s[1..]);
    }
  }
}
