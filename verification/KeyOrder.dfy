/** The order a `BTreeMap<String, _>` iterates in: lexicographic, shorter prefix first. */
module KeyOrder {
  import opened Sorting

  predicate KeyAtMost(a: string, b: string) {
    a == [] || (b != [] && (a[0] < b[0] || (a[0] == b[0] && KeyAtMost(a[1..], b[1..]))))
  }

  lemma {:induction false} KeyTotal(a: string, b: string)
    ensures KeyAtMost(a, b) || KeyAtMost(b, a)
  {
    if a != [] && b != [] && a[0] == b[0] {
      KeyTotal(a[1..], b[1..]);
    }
  }

  lemma {:induction false} KeyTransitive(a: string, b: string, c: string)
    requires KeyAtMost(a, b) && KeyAtMost(b, c)
    ensures KeyAtMost(a, c)
  {
    if a != [] && a[0] == b[0] && b[0] == c[0] {
      KeyTransitive(a[1..], b[1..], c[1..]);
    }
  }

  lemma {:induction false} KeyAntisymmetric(a: string, b: string)
    requires KeyAtMost(a, b) && KeyAtMost(b, a)
    ensures a == b
  {
    if a != [] && b != [] {
      KeyAntisymmetric(a[1..], b[1..]);
      assert a == [a[0]] + a[1..] && b == [b[0]] + b[1..];
    }
  }

  lemma KeysAreOrdered()
    ensures TotalPreorder(KeyAtMost)
  {
    forall a, b ensures KeyAtMost(a, b) || KeyAtMost(b, a) {
      KeyTotal(a, b);
    }
    forall a, b, c | KeyAtMost(a, b) && KeyAtMost(b, c) ensures KeyAtMost(a, c) {
      KeyTransitive(a, b, c);
    }
  }

  /** Where two keys first differ. */
  ghost predicate DifferFirst(a: string, b: string, i: nat) {
    i < |a| && i < |b| && a[..i] == b[..i] && a[i] < b[i]
  }

  ghost predicate Differ(a: string, b: string) { exists i: nat :: DifferFirst(a, b, i) }

  /** The order is that of the characters at the first difference, a proper beginning coming first. */
  lemma {:induction false} KeyOrderIsLexicographic(a: string, b: string)
    ensures KeyAtMost(a, b) <==> a <= b || Differ(a, b)
  {
    if a != [] && b != [] {
      if a[0] == b[0] {
        KeyOrderIsLexicographic(a[1..], b[1..]);
        PrefixTail(a, b);
        SameHeads(a, b);
      } else {
        OtherHeads(a, b);
      }
    }
  }

  lemma SameHeads(a: string, b: string)
    requires a != [] && b != [] && a[0] == b[0]
    ensures Differ(a, b) <==> Differ(a[1..], b[1..])
  {
    if i: nat :| DifferFirst(a[1..], b[1..], i) {
      DifferTail(a, b, i);
      assert DifferFirst(a, b, i + 1);
    }
    if i: nat :| DifferFirst(a, b, i) {
      DifferTail(a, b, i - 1);
      assert DifferFirst(a[1..], b[1..], i - 1);
    }
  }

  lemma SameBefore(a: string, b: string, i: nat)
    requires DifferFirst(a, b, i) && 0 < i
    ensures a[0] == b[0]
  {
    assert a[..i][0] == b[..i][0];
  }

  lemma OtherHeads(a: string, b: string)
    requires a != [] && b != [] && a[0] != b[0]
    ensures !(a <= b) && (Differ(a, b) <==> a[0] < b[0])
  {
    if i: nat :| DifferFirst(a, b, i) && 0 < i {
      SameBefore(a, b, i);
    }
    assert a[0] < b[0] ==> DifferFirst(a, b, 0);
  }

  lemma PrefixTail(a: string, b: string)
    requires a != [] && b != [] && a[0] == b[0]
    ensures a <= b <==> a[1..] <= b[1..]
  {
  }

  lemma DifferTail(a: string, b: string, i: nat)
    requires a != [] && b != [] && a[0] == b[0]
    ensures DifferFirst(a, b, i + 1) <==> DifferFirst(a[1..], b[1..], i)
  {
    if i + 1 < |a| && i + 1 < |b| {
      assert a[..i + 1] == [a[0]] + a[1..][..i] && b[..i + 1] == [b[0]] + b[1..][..i];
    }
  }

  ghost predicate StrictlyOrdered(keys: seq<string>) {
    forall i, j :: 0 <= i < j < |keys| ==> KeyAtMost(keys[i], keys[j]) && keys[i] != keys[j]
  }

  ghost function Listing(s: set<string>): (r: seq<string>)
    ensures multiset(r) == multiset(s)
  {
    if s == {} then []
    else
      var k :| k in s;
      assert multiset(s) == multiset{k} + multiset(s - {k});
      [k] + Listing(s - {k})
  }

  /** The keys of a `BTreeMap`, in the order it hands them out. */
  ghost function OrderedKeys(s: set<string>): (r: seq<string>)
    ensures multiset(r) == multiset(s)
    ensures forall k :: k in r <==> k in s
  {
    var r := Sort(Listing(s), KeyAtMost);
    SortPermutes(Listing(s), KeyAtMost);
    assert forall k :: k in r <==> k in multiset(r);
    r
  }

  lemma OrderedKeysAreStrict(s: set<string>)
    ensures StrictlyOrdered(OrderedKeys(s))
  {
    var r := OrderedKeys(s);
    KeysAreOrdered();
    SortSorts(Listing(s), KeyAtMost);
    assert NoDup(r);
    forall i, j | 0 <= i < j < |r| ensures r[i] != r[j] {
      NoDupApart(r, i, j);
    }
  }

  method KeysInOrder<V>(m: map<string, V>) returns (keys: seq<string>)
    ensures keys == OrderedKeys(m.Keys)
  {
    var left := m.Keys;
    keys := [];
    while left != {}
      invariant left <= m.Keys
      invariant multiset(keys) + multiset(left) == multiset(m.Keys)
      decreases left
    {
      var k :| k in left;
      assert multiset(left) == multiset{k} + multiset(left - {k});
      keys := keys + [k];
      left := left - {k};
    }
    KeysAreOrdered();
    KeysSeparate(keys);
    SortForgetsOrder(keys, Listing(m.Keys), KeyAtMost);
    keys := Sort(keys, KeyAtMost);
  }

  lemma KeysSeparate(keys: seq<string>)
    ensures Separates(KeyAtMost, keys)
  {
    forall i, j | 0 <= i < |keys| && 0 <= j < |keys| && KeyAtMost(keys[i], keys[j]) && KeyAtMost(keys[j], keys[i])
      ensures keys[i] == keys[j]
    {
      KeyAntisymmetric(keys[i], keys[j]);
    }
  }
}
