/** Lists whose elements are identified by a string key (an address). The
    preference store keeps each of its collections this way: insertion appends
    only when the key is new, removal drops every element with the key, and
    membership asks whether some element carries the key. */
module KeyedList {

  /** Kotlin's `xs.any { key(it) == k }`. */
  function Any<T>(xs: seq<T>, key: T -> string, k: string): (b: bool)
    ensures b <==> exists i :: 0 <= i < |xs| && key(xs[i]) == k
  {
    if |xs| == 0 then false
    else
      assert forall i :: 1 <= i < |xs| ==> xs[i] == xs[1..][i - 1];
      key(xs[0]) == k || Any(xs[1..], key, k)
  }

  /** Appends `x` unless an element with the same key is already present. */
  function Insert<T>(xs: seq<T>, x: T, key: T -> string): (r: seq<T>)
    ensures Any(r, key, key(x))
    ensures forall k :: Any(r, key, k) <==> Any(xs, key, k) || k == key(x)
    ensures |xs| <= |r| <= |xs| + 1 && r[..|xs|] == xs
  {
    if Any(xs, key, key(x)) then xs
    else
      assert (xs + [x])[|xs|] == x;
      assert forall i :: 0 <= i < |xs| ==> (xs + [x])[i] == xs[i];
      xs + [x]
  }

  /** Kotlin's `removeAll { key(it) == k }`: keeps, in order, the elements whose key differs. */
  function RemoveAll<T>(xs: seq<T>, key: T -> string, k: string): (r: seq<T>)
    ensures !Any(r, key, k)
    ensures forall i :: 0 <= i < |r| ==> r[i] in xs && key(r[i]) != k
    ensures forall i :: 0 <= i < |xs| && key(xs[i]) != k ==> xs[i] in r
    ensures forall j :: Any(r, key, j) <==> Any(xs, key, j) && j != k
    ensures |r| <= |xs|
  {
    if |xs| == 0 then []
    else
      var rest := RemoveAll(xs[1..], key, k);
      assert forall i :: 1 <= i < |xs| ==> xs[i] == xs[1..][i - 1];
      if key(xs[0]) == k then rest
      else
        assert forall i :: 1 <= i < |rest| + 1 ==> ([xs[0]] + rest)[i] == rest[i - 1];
        [xs[0]] + rest
  }

  /** Inserting twice is inserting once. */
  lemma InsertIdempotent<T>(xs: seq<T>, x: T, key: T -> string)
    ensures Insert(Insert(xs, x, key), x, key) == Insert(xs, x, key)
  {
  }

  /** An element whose key is already present, whatever its other fields, leaves the list as it was. */
  lemma InsertPresentKeyIsNoOp<T>(xs: seq<T>, x: T, key: T -> string)
    requires Any(xs, key, key(x))
    ensures Insert(xs, x, key) == xs
  {
  }

  /** An element with a new key goes to the end, after every earlier element. */
  lemma InsertNewKeyAppends<T>(xs: seq<T>, x: T, key: T -> string)
    requires !Any(xs, key, key(x))
    ensures Insert(xs, x, key) == xs + [x]
  {
  }

  /** Removing an absent key leaves the list unchanged. */
  lemma {:induction false} RemoveAbsentIsNoOp<T>(xs: seq<T>, key: T -> string, k: string)
    ensures !Any(xs, key, k) ==> RemoveAll(xs, key, k) == xs
  {
    if |xs| > 0 && !Any(xs, key, k) {
      assert key(xs[0]) != k;
      assert !Any(xs[1..], key, k);
      RemoveAbsentIsNoOp(xs[1..], key, k);
      assert xs == [xs[0]] + xs[1..];
    }
  }

  /** Removal works element by element, so the survivors keep their relative order. */
  lemma {:induction false} RemoveAllDistributes<T>(a: seq<T>, b: seq<T>, key: T -> string, k: string)
    ensures RemoveAll(a + b, key, k) == RemoveAll(a, key, k) + RemoveAll(b, key, k)
  {
    if |a| > 0 {
      assert (a + b)[1..] == a[1..] + b;
      RemoveAllDistributes(a[1..], b, key, k);
    } else {
      assert a + b == b;
    }
  }

  /** Removing the key of an element just inserted undoes the insertion. */
  lemma RemoveUndoesInsert<T>(xs: seq<T>, x: T, key: T -> string)
    ensures RemoveAll(Insert(xs, x, key), key, key(x)) == RemoveAll(xs, key, key(x))
  {
    if !Any(xs, key, key(x)) {
      RemoveAllDistributes(xs, [x], key, key(x));
      assert RemoveAll([x], key, key(x)) == [];
    }
  }
}
