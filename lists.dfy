/**
 * List operations the stores share: dropping every element with a given key
 * (`filter((x) => x.id !== id)`), keeping a prefix (`slice(0, n)`), and
 * uniqueness of keys.
 */
module Lists {

  /** Every element's key is different from every other's. */
  ghost predicate UniqueKeys<T>(s: seq<T>, key: T -> string) {
    forall i, j | 0 <= i < j < |s| :: key(s[i]) != key(s[j])
  }

  /** Some element has key `k`. */
  predicate ExistsKey<T>(s: seq<T>, key: T -> string, k: string) {
    exists i | 0 <= i < |s| :: key(s[i]) == k
  }

  /** The elements whose key is not `k`, in their order. */
  function DropKey<T(==,!new)>(s: seq<T>, key: T -> string, k: string): (r: seq<T>)
    ensures |r| <= |s|
    ensures !ExistsKey(r, key, k)
  {
    if |s| == 0 then []
    else
      assert s == [s[0]] + s[1..];
      (if key(s[0]) == k then [] else [s[0]]) + DropKey(s[1..], key, k)
  }

  /** The elements kept are exactly those with another key. */
  lemma {:induction false} DropKeyMembers<T(!new)>(s: seq<T>, key: T -> string, k: string)
    ensures forall x :: x in DropKey(s, key, k) <==> x in s && key(x) != k
  {
    if |s| > 0 {
      DropKeyMembers(s[1..], key, k);
      assert s == [s[0]] + s[1..];
    }
  }

  /** Dropping from a list with a first element decides that element, then drops from the rest. */
  lemma DropKeyCons<T(!new)>(x: T, s: seq<T>, key: T -> string, k: string)
    ensures DropKey([x] + s, key, k) == (if key(x) == k then [] else [x]) + DropKey(s, key, k)
  {
    assert ([x] + s)[1..] == s;
  }

  /** Dropping distributes over concatenation. */
  lemma {:induction false} DropKeyConcat<T(!new)>(a: seq<T>, b: seq<T>, key: T -> string, k: string)
    ensures DropKey(a + b, key, k) == DropKey(a, key, k) + DropKey(b, key, k)
  {
    if |a| == 0 {
      assert a + b == b;
    } else {
      var x, t := a[0], a[1..];
      assert a == [x] + t && a + b == [x] + (t + b);
      DropKeyConcat(t, b, key, k);
      DropKeyCons(x, t + b, key, k);
      DropKeyCons(x, t, key, k);
      var h, rt, rb := (if key(x) == k then [] else [x]), DropKey(t, key, k), DropKey(b, key, k);
      assert h + (rt + rb) == (h + rt) + rb;
    }
  }

  /** Dropping changes nothing exactly when no element has the key. */
  lemma {:induction false} DropKeyUnchanged<T(!new)>(s: seq<T>, key: T -> string, k: string)
    ensures DropKey(s, key, k) == s <==> !ExistsKey(s, key, k)
  {
    if ExistsKey(s, key, k) {
      var i :| 0 <= i < |s| && key(s[i]) == k;
      assert s[i] !in DropKey(s, key, k);
    } else if |s| > 0 {
      DropKeyUnchanged(s[1..], key, k);
      assert !ExistsKey(s[1..], key, k) by {
        forall i | 0 <= i < |s[1..]| ensures key(s[1..][i]) != k {
          assert s[1..][i] == s[i + 1];
        }
      }
      assert s == [s[0]] + s[1..];
    }
  }

  /** Dropping keeps keys unique. */
  lemma {:induction false} DropKeyUnique<T(!new)>(s: seq<T>, key: T -> string, k: string)
    requires UniqueKeys(s, key)
    ensures UniqueKeys(DropKey(s, key, k), key)
  {
    if |s| > 0 {
      var t := s[1..];
      assert UniqueKeys(t, key) by {
        forall i, j | 0 <= i < j < |t| ensures key(t[i]) != key(t[j]) {
          assert t[i] == s[i + 1] && t[j] == s[j + 1];
        }
      }
      DropKeyUnique(t, key, k);
      DropKeyMembers(t, key, k);
      var w := DropKey(t, key, k);
      if key(s[0]) != k {
        var r := [s[0]] + w;
        forall i, j | 0 <= i < j < |r| ensures key(r[i]) != key(r[j]) {
          if i == 0 {
            assert r[j] == w[j - 1] && w[j - 1] in t;
            var b :| 0 <= b < |t| && t[b] == w[j - 1];
            assert t[b] == s[b + 1];
          } else {
            assert r[i] == w[i - 1] && r[j] == w[j - 1];
          }
        }
      }
    }
  }

  /** `s.slice(0, n)` for a non-negative `n`. */
  function Take<T>(s: seq<T>, n: nat): (r: seq<T>)
    ensures |r| == if n <= |s| then n else |s|
    ensures r == s[..|r|]
  {
    if n <= |s| then s[..n] else s
  }
}
