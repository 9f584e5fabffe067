/** Lexicographic orders: value names, and the keys that place a transfer in the global communication order. */
module Orders {

  predicate NameLess(a: string, b: string) {
    b != [] && (a == [] || a[0] < b[0] || (a[0] == b[0] && NameLess(a[1..], b[1..])))
  }

  lemma {:induction false} NameLessIrreflexive(a: string)
    ensures !NameLess(a, a)
  {
    if a != [] { NameLessIrreflexive(a[1..]); }
  }

  lemma {:induction false} NameLessTransitive(a: string, b: string, c: string)
    requires NameLess(a, b) && NameLess(b, c)
    ensures NameLess(a, c)
  {
    if a != [] && a[0] == b[0] && b[0] == c[0] { NameLessTransitive(a[1..], b[1..], c[1..]); }
  }

  lemma {:induction false} NameLessTotal(a: string, b: string)
    ensures a == b || NameLess(a, b) || NameLess(b, a)
  {
    if a != [] && b != [] && a[0] == b[0] {
      NameLessTotal(a[1..], b[1..]);
      assert a == [a[0]] + a[1..] && b == [b[0]] + b[1..];
    }
  }

  /** Names `a` and `b` agree before position `k`; there `a` ends or has the smaller character. */
  predicate DiffersAt(a: string, b: string, k: nat) {
    k <= |a| && k < |b| && a[..k] == b[..k] && (k == |a| || a[k] < b[k])
  }

  /** The order of strings: by the first character in which they differ, a proper prefix first. */
  lemma {:induction false} NameLessIs(a: string, b: string)
    ensures NameLess(a, b) <==> exists k: nat :: DiffersAt(a, b, k)
  {
    if a == [] || b == [] || a[0] != b[0] {
      if NameLess(a, b) { assert DiffersAt(a, b, 0); }
      if k: nat :| DiffersAt(a, b, k) { assert k > 0 ==> a[..k][0] == b[..k][0]; }
    } else {
      NameLessIs(a[1..], b[1..]);
      if k: nat :| DiffersAt(a[1..], b[1..], k) {
        assert a[..k + 1] == [a[0]] + a[1..][..k] && b[..k + 1] == [b[0]] + b[1..][..k];
        assert DiffersAt(a, b, k + 1);
      }
      if k: nat :| DiffersAt(a, b, k) {
        assert a[1..][..k - 1] == a[..k][1..] && b[1..][..k - 1] == b[..k][1..];
        assert DiffersAt(a[1..], b[1..], k - 1);
      }
    }
  }

  // ---------- sublists ----------

  /** `a` is `b` with some elements left out. */
  predicate Sublist<T(==)>(a: seq<T>, b: seq<T>) {
    a == [] || (b != [] && (Sublist(a, b[..|b| - 1]) ||
                            (a[|a| - 1] == b[|b| - 1] && Sublist(a[..|a| - 1], b[..|b| - 1]))))
  }

  lemma SublistKeeps<T>(a: seq<T>, b: seq<T>)
    requires b != [] && Sublist(a, b[..|b| - 1])
    ensures Sublist(a + [b[|b| - 1]], b)
  {
    assert (a + [b[|b| - 1]])[..|a|] == a;
  }

  lemma {:induction false} SublistTransitive<T>(a: seq<T>, b: seq<T>, c: seq<T>)
    requires Sublist(a, b) && Sublist(b, c)
    ensures Sublist(a, c)
    decreases |c|, |b|
  {
    if a != [] && c != [] {
      var c' := c[..|c| - 1];
      if Sublist(b, c') {
        SublistTransitive(a, b, c');
      } else {
        var b' := b[..|b| - 1];
        if Sublist(a, b') { SublistTransitive(a, b', c'); } else { SublistTransitive(a[..|a| - 1], b', c'); }
      }
    }
  }

  datatype Key = Key(time: int, rank: int, dest: int, name: string, index: int)

  predicate KeyLess(a: Key, b: Key) {
    a.time < b.time || (a.time == b.time &&
    (a.rank < b.rank || (a.rank == b.rank &&
    (a.dest < b.dest || (a.dest == b.dest &&
    (NameLess(a.name, b.name) || (a.name == b.name && a.index < b.index)))))))
  }

  lemma KeyLessIrreflexive(a: Key)
    ensures !KeyLess(a, a)
  {
    NameLessIrreflexive(a.name);
  }

  lemma KeyLessTransitive(a: Key, b: Key, c: Key)
    requires KeyLess(a, b) && KeyLess(b, c)
    ensures KeyLess(a, c)
  {
    if NameLess(a.name, b.name) && NameLess(b.name, c.name) { NameLessTransitive(a.name, b.name, c.name); }
  }

  lemma KeyLessTotal(a: Key, b: Key)
    ensures a == b || KeyLess(a, b) || KeyLess(b, a)
  {
    NameLessTotal(a.name, b.name);
  }
}
