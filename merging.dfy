/** parsers.go, the Merge functions: the entries of a second table written
    over a first one, which is updated in place and returned. */
module Merging {

  /** A Go map held by reference: `MergePrayers` and its siblings write into
      the map they are given, so the caller sees the change. */
  class Table<V> {
    var entries: map<string, V>

    constructor (entries: map<string, V>)
      ensures this.entries == entries
    {
      this.entries := entries;
    }
  }

  /** `MergePrayers`, `MergeStructures`, `MergeMysteries` and `MergeGroups`
      (the same loop at four types): every entry of `b` is written into `a`,
      in whatever order the map is ranged over, and `a` itself is returned.
      Afterwards every key of `b` has b's value, every other key of `a`
      keeps a's value, and no other key appears. */
  method Merge<V>(a: Table<V>, b: map<string, V>) returns (r: Table<V>)
    modifies a
    ensures r == a
    ensures a.entries.Keys == old(a.entries).Keys + b.Keys
    ensures forall k | k in b :: a.entries[k] == b[k]
    ensures forall k | k in old(a.entries) && k !in b :: a.entries[k] == old(a.entries)[k]
    ensures a.entries == old(a.entries) + b
  {
    var todo := b.Keys;
    ghost var done: set<string> := {};
    while todo != {}
      invariant todo + done == b.Keys && todo !! done
      invariant a.entries == old(a.entries) + Restrict(b, done)
      decreases todo
    {
      var k :| k in todo;
      RestrictAdd(b, done, k);
      a.entries := a.entries[k := b[k]];
      todo, done := todo - {k}, done + {k};
    }
    assert Restrict(b, done) == b;
    r := a;
  }

  /** The entries of `m` whose keys are in `keys`. */
  function Restrict<V>(m: map<string, V>, keys: set<string>): (r: map<string, V>)
    ensures r.Keys == m.Keys * keys
    ensures forall k | k in r :: r[k] == m[k]
  {
    map k | k in m && k in keys :: m[k]
  }

  lemma RestrictAdd<V>(m: map<string, V>, keys: set<string>, k: string)
    requires k in m
    ensures Restrict(m, keys + {k}) == Restrict(m, keys)[k := m[k]]
  {
  }

  /** Merging the same table twice is the same as merging it once. */
  lemma {:induction false} MergeIdempotent<V>(a: map<string, V>, b: map<string, V>)
    ensures (a + b) + b == a + b
  {
    var once, twice := a + b, (a + b) + b;
    assert once.Keys == twice.Keys;
    forall k | k in once
      ensures twice[k] == once[k]
    {
    }
  }

  /** Go's `Generator.Init` merges the local option file's tables over the
      loaded ones; two merges of the same table in a row change nothing. */
  method MergeTwice<V>(a: Table<V>, b: map<string, V>)
    modifies a
    ensures a.entries == old(a.entries) + b
  {
    var r1 := Merge(a, b);
    var r2 := Merge(a, b);
    MergeIdempotent(old(a.entries), b);
  }
}
