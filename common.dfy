/** Small shared vocabulary: optional values, results, JavaScript truthiness
    of nullable strings, and the order-preserving "drop by id" filter that the
    file picker and the own-posts list both use. */
module Common {

  datatype Option<+T> = None | Some(value: T)

  datatype Result<+T, +E> = Success(value: T) | Failure(error: E)

  /** The outcome of awaiting a server action that resolves to `{ data }`:
      it either throws, or resolves with data that may be missing. */
  datatype Call<+T> = Threw | Resolved(data: Option<T>)

  /** JavaScript truthiness of a `string | null` value: `null` and `""` are falsy. */
  predicate Truthy(s: Option<string>) {
    s.Some? && s.value != ""
  }

  /** `xs.filter(x => key(x) !== id)`: every element whose key is `id` is
      dropped, the others stay in their order. */
  function Without<T>(xs: seq<T>, key: T -> string, id: string): (r: seq<T>)
    ensures |r| <= |xs|
    ensures forall x <- r :: x in xs && key(x) != id
    ensures forall x <- xs :: key(x) != id ==> x in r
    ensures (forall x <- xs :: key(x) != id) ==> r == xs
  {
    if xs == [] then []
    else if key(xs[0]) == id then Without(xs[1..], key, id)
    else [xs[0]] + Without(xs[1..], key, id)
  }

  /** Filtering distributes over concatenation: the survivors of `a` come
      before the survivors of `b`, so relative order is kept. */
  lemma {:induction false} WithoutAppend<T>(a: seq<T>, b: seq<T>, key: T -> string, id: string)
    ensures Without(a + b, key, id) == Without(a, key, id) + Without(b, key, id)
  {
    if a == [] {
      assert a + b == b;
    } else {
      assert (a + b)[0] == a[0];
      assert (a + b)[1..] == a[1..] + b;
      WithoutAppend(a[1..], b, key, id);
    }
  }

  /** Removing the same id twice is the same as removing it once. */
  lemma WithoutIdempotent<T>(xs: seq<T>, key: T -> string, id: string)
    ensures Without(Without(xs, key, id), key, id) == Without(xs, key, id)
  {
  }
}
