/** Byte strings and the order Rust gives to byte slices. */
module ByteStrings {
  import opened Sorting

  newtype byte = x: int | 0 <= x < 256

  type Bytes = seq<byte>

  /** Lexicographic comparison; a proper prefix comes first. */
  predicate LexLe(a: Bytes, b: Bytes) {
    if a == [] then true
    else if b == [] then false
    else if a[0] != b[0] then a[0] < b[0]
    else LexLe(a[1..], b[1..])
  }

  predicate LexLess(a: Bytes, b: Bytes) {
    a != b && LexLe(a, b)
  }

  lemma {:induction false} LexTotal(a: Bytes, b: Bytes)
    ensures LexLe(a, b) || LexLe(b, a)
    ensures LexLe(a, b) && LexLe(b, a) ==> a == b
  {
    if a != [] && b != [] && a[0] == b[0] {
      LexTotal(a[1..], b[1..]);
      assert a == [a[0]] + a[1..] && b == [b[0]] + b[1..];
    }
  }

  lemma {:induction false} LexTransitive(a: Bytes, b: Bytes, c: Bytes)
    requires LexLe(a, b) && LexLe(b, c)
    ensures LexLe(a, c)
  {
    if a != [] && a[0] == b[0] == c[0] {
      LexTransitive(a[1..], b[1..], c[1..]);
    }
  }

  lemma LexIsTotalOrder()
    ensures TotalOrder(LexLe)
  {
    forall a, b ensures (LexLe(a, b) || LexLe(b, a)) && (LexLe(a, b) && LexLe(b, a) ==> a == b) {
      LexTotal(a, b);
    }
    forall a, b, c | LexLe(a, b) && LexLe(b, c) ensures LexLe(a, c) {
      LexTransitive(a, b, c);
    }
  }

  /** One string is smaller when it is a proper prefix, or when the first byte that differs is smaller. */
  lemma {:induction false} LexLessExactly(a: Bytes, b: Bytes)
    ensures LexLess(a, b) <==> a < b || exists i :: FirstSmaller(a, b, i)
  {
    if a != [] && b != [] {
      if a[0] == b[0] {
        LexLessExactly(a[1..], b[1..]);
        TailLess(a, b);
      } else if a[0] < b[0] {
        assert FirstSmaller(a, b, 0);
      } else {
        NotSmaller(a, b);
      }
    }
  }

  /** Equal before `i`, and smaller there. */
  ghost predicate FirstSmaller(a: Bytes, b: Bytes, i: nat) {
    i < |a| && i < |b| && a[..i] == b[..i] && a[i] < b[i]
  }

  lemma NotSmaller(a: Bytes, b: Bytes)
    requires a != [] && b != [] && a[0] > b[0]
    ensures !(a < b) && forall i: nat :: !FirstSmaller(a, b, i)
  {
    forall i: nat ensures !FirstSmaller(a, b, i) {
      assert 0 < i < |a| && i < |b| ==> a[..i][0] == a[0] && b[..i][0] == b[0];
    }
  }

  lemma TailLess(a: Bytes, b: Bytes)
    requires a != [] && b != [] && a[0] == b[0]
    ensures a < b <==> a[1..] < b[1..]
    ensures (exists i :: FirstSmaller(a, b, i)) <==> exists i :: FirstSmaller(a[1..], b[1..], i)
    ensures a == b <==> a[1..] == b[1..]
  {
    assert a == [a[0]] + a[1..] && b == [b[0]] + b[1..];
    if i: nat :| FirstSmaller(a, b, i) {
      assert i > 0 && a[1..][..i - 1] == a[..i][1..] && b[1..][..i - 1] == b[..i][1..];
      assert FirstSmaller(a[1..], b[1..], i - 1);
    }
    if i: nat :| FirstSmaller(a[1..], b[1..], i) {
      assert a[..i + 1] == [a[0]] + a[1..][..i] && b[..i + 1] == [b[0]] + b[1..][..i];
      assert FirstSmaller(a, b, i + 1);
    }
  }
}
