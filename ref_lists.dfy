/** Ordered reference lists (`Category.drawings`, `Register.categories`) and
    the one non-trivial operation the handlers apply to them:
    `list.filter(x => x.toString() !== id)`, which removes every occurrence of
    an identifier and keeps the rest in order. Pushing and prepending are
    plain sequence concatenation. */
module RefLists {
  import opened Documents

  /** Every occurrence of `x` removed, the other elements kept in order. */
  function RemoveAll(s: seq<Id>, x: Id): (r: seq<Id>)
    ensures x !in r
    ensures forall y :: y != x ==> (y in r <==> y in s)
    ensures |r| <= |s|
    ensures x in s ==> |r| < |s|
  {
    if s == [] then []
    else (if s[0] == x then [] else [s[0]]) + RemoveAll(s[1..], x)
  }

  /** Filtering distributes over concatenation: the relative order of the kept
      elements is exactly their order in the input. */
  lemma {:induction false} RemoveAllAppend(a: seq<Id>, b: seq<Id>, x: Id)
    ensures RemoveAll(a + b, x) == RemoveAll(a, x) + RemoveAll(b, x)
  {
    if a == [] {
      assert a + b == b;
    } else {
      var head := if a[0] == x then [] else [a[0]];
      assert (a + b)[0] == a[0];
      assert (a + b)[1..] == a[1..] + b;
      RemoveAllAppend(a[1..], b, x);
      calc {
        RemoveAll(a + b, x);
        head + RemoveAll(a[1..] + b, x);
        head + (RemoveAll(a[1..], x) + RemoveAll(b, x));
        (head + RemoveAll(a[1..], x)) + RemoveAll(b, x);
        RemoveAll(a, x) + RemoveAll(b, x);
      }
    }
  }

  /** Filtering out an identifier that is not in the list changes nothing. */
  lemma {:induction false} RemoveAllAbsent(s: seq<Id>, x: Id)
    requires x !in s
    ensures RemoveAll(s, x) == s
  {
    if s != [] {
      assert s[0] != x;
      assert x !in s[1..];
      RemoveAllAbsent(s[1..], x);
      assert [s[0]] + s[1..] == s;
    }
  }

  /** Exactly the occurrences of `x` disappear: every other element keeps its
      multiplicity. */
  lemma {:induction false} RemoveAllMultiset(s: seq<Id>, x: Id)
    ensures multiset(RemoveAll(s, x)) == multiset(s)[x := 0]
  {
    if s != [] {
      var head := if s[0] == x then [] else [s[0]];
      RemoveAllMultiset(s[1..], x);
      assert s == [s[0]] + s[1..];
      assert multiset(s) == multiset([s[0]]) + multiset(s[1..]);
      assert RemoveAll(s, x) == head + RemoveAll(s[1..], x);
      assert multiset(RemoveAll(s, x)) == multiset(head) + multiset(s[1..])[x := 0];
    }
  }

  /** Filtering twice by the same identifier is filtering once. */
  lemma RemoveAllIdempotent(s: seq<Id>, x: Id)
    ensures RemoveAll(RemoveAll(s, x), x) == RemoveAll(s, x)
  {
    RemoveAllAbsent(RemoveAll(s, x), x);
  }
}
