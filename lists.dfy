/** The Python list operations the core relies on, over sequences. */
module Lists {

  /** No element occurs twice. */
  predicate NoDup<T(==)>(s: seq<T>)
  {
    s == [] || (s[0] !in s[1..] && NoDup(s[1..]))
  }

  /** `NoDup` read position by position: no two positions hold the same element. */
  lemma {:induction false} NoDupAt<T>(s: seq<T>)
    ensures NoDup(s) <==> forall i, j | 0 <= i < j < |s| :: s[i] != s[j]
  {
    if s != [] {
      NoDupAt(s[1..]);
      if NoDup(s) {
        forall i, j | 0 <= i < j < |s| ensures s[i] != s[j] {
          if i > 0 {
            assert s[i] == s[1..][i - 1] && s[j] == s[1..][j - 1];
          } else {
            assert s[j] == s[1..][j - 1];
          }
        }
      }
      if forall i, j | 0 <= i < j < |s| :: s[i] != s[j] {
        forall i, j | 0 <= i < j < |s[1..]| ensures s[1..][i] != s[1..][j] {
          assert s[1..][i] == s[i + 1] && s[1..][j] == s[j + 1];
        }
      }
    }
  }

  /** Appending an element that is not yet present keeps a list free of duplicates. */
  lemma NoDupSnoc<T>(s: seq<T>, x: T)
    requires NoDup(s) && x !in s
    ensures NoDup(s + [x])
  {
    NoDupAt(s);
    NoDupAt(s + [x]);
    forall i, j | 0 <= i < j < |s + [x]| ensures (s + [x])[i] != (s + [x])[j] {
      if j < |s| {
        assert (s + [x])[i] == s[i] && (s + [x])[j] == s[j];
      } else {
        assert (s + [x])[i] == s[i];
      }
    }
  }

  /** `list.remove(x)`: drops the first occurrence of `x`; a missing `x` leaves the list as it is
      (the callers in the core test membership first). */
  function RemoveFirst<T(==)>(s: seq<T>, x: T): (r: seq<T>)
    ensures x in s ==> |r| == |s| - 1
    ensures x !in s ==> r == s
    ensures forall y | y in r :: y in s
    ensures NoDup(s) ==> NoDup(r) && x !in r && forall y | y in s && y != x :: y in r
  {
    if s == [] then []
    else if s[0] == x then s[1..]
    else
      var t := RemoveFirst(s[1..], x);
      assert ([s[0]] + t)[1..] == t;
      [s[0]] + t
  }

  /** Removing an element that is not in the first part leaves that part in place. */
  lemma {:induction false} RemoveFirstAfter<T>(a: seq<T>, b: seq<T>, x: T)
    requires x !in a
    ensures RemoveFirst(a + b, x) == a + RemoveFirst(b, x)
  {
    if a == [] {
      assert a + b == b;
    } else {
      assert (a + b)[0] == a[0] && (a + b)[1..] == a[1..] + b;
      RemoveFirstAfter(a[1..], b, x);
      assert a + RemoveFirst(b, x) == [a[0]] + (a[1..] + RemoveFirst(b, x));
    }
  }

  /** Deleting one position of a list without duplicates leaves a list without duplicates. */
  lemma DeleteKeepsNoDup<T>(s: seq<T>, i: nat)
    requires NoDup(s) && i < |s|
    ensures NoDup(s[..i] + s[i + 1..])
  {
    NoDupAt(s);
    var t := s[..i] + s[i + 1..];
    forall a, b | 0 <= a < b < |t|
      ensures t[a] != t[b]
    {
      assert t[a] == s[if a < i then a else a + 1];
      assert t[b] == s[if b < i then b else b + 1];
    }
    NoDupAt(t);
  }

  /** Over a list without duplicates, `list.remove` of the element at position `i` deletes that
      position. */
  lemma {:induction false} RemoveFirstAt<T>(s: seq<T>, i: nat)
    requires NoDup(s) && i < |s|
    ensures RemoveFirst(s, s[i]) == s[..i] + s[i + 1..]
  {
    if i > 0 {
      assert s[i] == s[1..][i - 1];
      RemoveFirstAt(s[1..], i - 1);
      assert s[1..][i - 1] == s[i];
      assert s[..i] == [s[0]] + s[1..][..i - 1];
      assert s[i + 1..] == s[1..][i..];
    }
  }
}
