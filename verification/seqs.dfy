/** Generic sequence helpers: flattening, and an order-preserving filter-map
    together with the indices of the elements it keeps. */
module Seqs {
  import opened Results

  /** Concatenation of a sequence of sequences (lodash-style `flatten`). */
  function Flatten<T>(xss: seq<seq<T>>): seq<T> {
    if xss == [] then [] else xss[0] + Flatten(xss[1..])
  }

  /** An element is in the flattening exactly when it is in one of the parts. */
  lemma {:induction false} FlattenMembers<T>(xss: seq<seq<T>>)
    ensures forall xs, x :: xs in xss && x in xs ==> x in Flatten(xss)
    ensures forall x :: x in Flatten(xss) ==> exists xs :: xs in xss && x in xs
  {
    if xss != [] {
      FlattenMembers(xss[1..]);
      forall xs, x | xs in xss && x in xs ensures x in Flatten(xss) {
        if xs != xss[0] {
          assert xs in xss[1..];
        }
      }
      forall x | x in Flatten(xss) ensures exists xs :: xs in xss && x in xs {
        if x !in xss[0] {
          assert x in Flatten(xss[1..]);
          var xs :| xs in xss[1..] && x in xs;
          assert xs in xss;
        }
      }
    }
  }

  /** Keeps, in order, the payload of every element `f` maps to `Some`. */
  function FilterMap<T, U>(f: T -> Option<U>, s: seq<T>): (r: seq<U>)
  {
    if s == [] then []
    else
      match f(s[0])
      case Some(u) => [u] + FilterMap(f, s[1..])
      case None => FilterMap(f, s[1..])
  }

  ghost predicate StrictlyIncreasing(idx: seq<nat>) {
    forall a, b :: 0 <= a < b < |idx| ==> idx[a] < idx[b]
  }

  /** The indices `i >= from` of `s`, ascending, at which `f` yields `Some`. */
  function KeptFrom<T, U>(f: T -> Option<U>, s: seq<T>, from: nat): (r: seq<nat>)
    requires from <= |s|
    ensures forall k :: 0 <= k < |r| ==> from <= r[k] < |s| && f(s[r[k]]).Some?
    ensures forall i :: from <= i < |s| && f(s[i]).Some? ==> i in r
    ensures StrictlyIncreasing(r)
    ensures |r| <= |s| - from
    decreases |s| - from
  {
    if from == |s| then []
    else if f(s[from]).Some? then [from] + KeptFrom(f, s, from + 1)
    else KeptFrom(f, s, from + 1)
  }

  /** `FilterMap` is the image of `s` under `f` at exactly the kept indices,
      in ascending order: an order-preserving subsequence. */
  lemma {:induction false} FilterMapAtKept<T, U>(f: T -> Option<U>, s: seq<T>, from: nat)
    requires from <= |s|
    ensures |FilterMap(f, s[from..])| == |KeptFrom(f, s, from)|
    ensures forall k :: 0 <= k < |KeptFrom(f, s, from)| ==>
              FilterMap(f, s[from..])[k] == f(s[KeptFrom(f, s, from)[k]]).value
    decreases |s| - from
  {
    if from < |s| {
      var t := s[from..];
      assert t[0] == s[from] && t[1..] == s[from + 1..];
      FilterMapAtKept(f, s, from + 1);
      var rest, kept := FilterMap(f, s[from + 1..]), KeptFrom(f, s, from + 1);
      if f(s[from]).Some? {
        assert FilterMap(f, t) == [f(s[from]).value] + rest;
        assert KeptFrom(f, s, from) == [from] + kept;
      } else {
        assert FilterMap(f, t) == rest;
        assert KeptFrom(f, s, from) == kept;
      }
    }
  }

  /** Reassociates appending one element; stated apart so that callers
      need not reason about concatenation in a large context. */
  lemma AppendAssoc<T>(a: seq<T>, x: T, b: seq<T>)
    ensures (a + [x]) + b == a + ([x] + b)
  {
  }
}
