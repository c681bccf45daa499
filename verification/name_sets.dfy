/** `HashSet<string>` as the model keeps it: a sequence without repetitions, in insertion order. */
module NameSets {

  /** No name occurs twice. */
  predicate Distinct(s: seq<string>) {
    forall i, j :: 0 <= i < j < |s| ==> s[i] != s[j]
  }

  /** The names in a sequence, as a set. */
  function Elems(s: seq<string>): set<string> {
    set x | x in s
  }

  /** `HashSet<string>.Add`: a name already present leaves the set as it is; a new one
      is enumerated after the names added before it. */
  function Add(s: seq<string>, x: string): (r: seq<string>)
    ensures Elems(r) == Elems(s) + {x}
    ensures Distinct(s) ==> Distinct(r)
    ensures |s| <= |r| && r[..|s|] == s
  {
    if x in s then s else s + [x]
  }

  /** Adding the names `xs` one after the other, first to last. */
  function AddAll(s: seq<string>, xs: seq<string>): (r: seq<string>)
    ensures Elems(r) == Elems(s) + Elems(xs)
    ensures Distinct(s) ==> Distinct(r)
    ensures |s| <= |r| && r[..|s|] == s
    decreases |xs|
  {
    if xs == [] then s
    else
      var init := xs[..|xs| - 1];
      assert Elems(xs) == Elems(init) + {xs[|xs| - 1]} by {
        assert xs == init + [xs[|xs| - 1]];
      }
      Add(AddAll(s, init), xs[|xs| - 1])
  }

  lemma AddAllSnoc(s: seq<string>, xs: seq<string>, x: string)
    ensures AddAll(s, xs + [x]) == Add(AddAll(s, xs), x)
  {
    assert (xs + [x])[..|xs|] == xs;
  }

  /** Adding names that are all new, and new to each other, appends them in order. */
  lemma {:induction false} AddAllFresh(s: seq<string>, xs: seq<string>)
    requires Distinct(s + xs)
    ensures AddAll(s, xs) == s + xs
    decreases |xs|
  {
    if xs != [] {
      var init, last := xs[..|xs| - 1], xs[|xs| - 1];
      assert s + xs == (s + init) + [last];
      assert Distinct(s + init) by {
        forall i, j | 0 <= i < j < |s + init| ensures (s + init)[i] != (s + init)[j] {
          assert (s + init)[i] == (s + xs)[i] && (s + init)[j] == (s + xs)[j];
        }
      }
      AddAllFresh(s, init);
      assert last !in s + init by {
        forall k | 0 <= k < |s + init| ensures (s + init)[k] != last {
          assert (s + init)[k] == (s + xs)[k] && last == (s + xs)[|s + xs| - 1];
        }
      }
    }
  }
}
