/** Facts about finite sequences that the other modules share. */
module Sequences {

  lemma Assoc<T>(a: seq<T>, b: seq<T>, c: seq<T>)
    ensures a + b + c == a + (b + c)
  {}

  lemma EmptyConcat<T>(xs: seq<T>, ys: seq<T>)
    requires xs == []
    ensures xs + ys == ys
  {}

  lemma TailOfConcat<T>(xs: seq<T>, ys: seq<T>)
    requires xs != []
    ensures (xs + ys)[0] == xs[0]
    ensures (xs + ys)[1..] == xs[1..] + ys
  {}

  lemma FrontOfSnoc<T>(xs: seq<T>, x: T)
    ensures (xs + [x])[..|xs|] == xs
    ensures (xs + [x])[|xs|] == x
  {}

  lemma SplitTwice<T>(s: seq<T>, i: nat, j: nat)
    requires i < j <= |s|
    ensures s == s[..i] + (([s[i]] + s[i + 1..j]) + s[j..])
  {}

  lemma SplitOnce<T>(s: seq<T>, i: nat)
    requires i <= |s|
    ensures s == s[..i] + s[i..]
  {}

  function Flatten<T>(parts: seq<seq<T>>): seq<T> {
    if parts == [] then [] else parts[0] + Flatten(parts[1..])
  }

  lemma {:induction false} FlattenConcat<T>(xs: seq<seq<T>>, ys: seq<seq<T>>)
    ensures Flatten(xs + ys) == Flatten(xs) + Flatten(ys)
  {
    if xs == [] {
      assert xs + ys == ys;
    } else {
      assert (xs + ys)[1..] == xs[1..] + ys;
      FlattenConcat(xs[1..], ys);
      Assoc(xs[0], Flatten(xs[1..]), Flatten(ys));
    }
  }

  lemma FlattenOne<T>(part: seq<T>)
    ensures Flatten([part]) == part
  {}
}
