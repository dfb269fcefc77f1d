/** Maps that are iterated in the order of their keys, as `std::map` with string keys. */
module OrderedMaps {
  import opened Codec

  type Name = seq<byte>

  /** A name as a C string: it ends before the first zero byte. */
  function CString(s: Name): (r: Name)
    ensures 0 !in r && r <= s
    ensures 0 !in s ==> r == s
  {
    if s == [] || s[0] == 0 then [] else [s[0]] + CString(s[1..])
  }

  /** It is the longest part without zero bytes that the name begins with. */
  lemma {:induction false} CStringLongest(s: Name)
    ensures CString(s) == s || s[|CString(s)|] == 0
    ensures forall i | 0 <= i < |CString(s)| :: CString(s)[i] == s[i] != 0
  {
    if s != [] && s[0] != 0 {
      CStringLongest(s[1..]);
    }
  }

  /** Lexicographic order of bytes. */
  predicate Less(a: Name, b: Name) {
    if b == [] then false
    else if a == [] then true
    else a[0] < b[0] || (a[0] == b[0] && Less(a[1..], b[1..]))
  }

  lemma {:induction false} LessTotal(a: Name, b: Name)
    ensures Less(a, b) || a == b || Less(b, a)
    ensures !(Less(a, b) && Less(b, a)) && !Less(a, a)
  {
    if a != [] && b != [] {
      LessTotal(a[1..], b[1..]);
      assert a == [a[0]] + a[1..] && b == [b[0]] + b[1..];
    }
    if a != [] {
      LessTotal(a[1..], a[1..]);
    }
  }

  /** Position `n` decides: both names agree before it, and there the first one has ended or has
      the smaller byte. */
  predicate DecidedAt(a: Name, b: Name, n: nat) {
    n < |b| && n <= |a| && a[..n] == b[..n] && (n == |a| || a[n] < b[n])
  }

  lemma {:induction false} LessExactly(a: Name, b: Name)
    ensures Less(a, b) <==> exists n: nat :: DecidedAt(a, b, n)
  {
    forall n: nat | 0 < n <= |a| && n <= |b| && a[..n] == b[..n] ensures a[0] == b[0] {
      assert a[..n][0] == b[..n][0];
    }
    if b != [] && a == [] {
      assert DecidedAt(a, b, 0);
    } else if b != [] && a[0] < b[0] {
      assert DecidedAt(a, b, 0);
    } else if b != [] && a[0] == b[0] {
      LessExactly(a[1..], b[1..]);
      if n: nat :| DecidedAt(a[1..], b[1..], n) {
        assert a[..n + 1] == [a[0]] + a[1..][..n] && b[..n + 1] == [b[0]] + b[1..][..n];
        assert DecidedAt(a, b, n + 1);
      }
      if n: nat :| DecidedAt(a, b, n) && n > 0 {
        assert a[1..][..n - 1] == a[..n][1..] && b[1..][..n - 1] == b[..n][1..];
        assert DecidedAt(a[1..], b[1..], n - 1);
      }
    }
  }

  lemma {:induction false} LessTransitive(a: Name, b: Name, c: Name)
    requires Less(a, b) && Less(b, c)
    ensures Less(a, c)
  {
    if a != [] && a[0] == b[0] && b[0] == c[0] {
      LessTransitive(a[1..], b[1..], c[1..]);
    }
  }

  datatype Entry<+V> = Entry(key: Name, value: V)

  predicate Sorted<V>(m: seq<Entry<V>>) {
    forall i, j | 0 <= i < j < |m| :: Less(m[i].key, m[j].key)
  }

  /** The position of a key, or where it would be inserted. */
  function LowerBound<V>(m: seq<Entry<V>>, key: Name): (r: nat)
    ensures r <= |m|
    ensures forall i | 0 <= i < r :: Less(m[i].key, key)
    ensures r < |m| ==> !Less(m[r].key, key)
  {
    if m == [] || !Less(m[0].key, key) then 0 else 1 + LowerBound(m[1..], key)
  }

  predicate Has<V>(m: seq<Entry<V>>, key: Name) {
    LowerBound(m, key) < |m| && m[LowerBound(m, key)].key == key
  }

  function Get<V>(m: seq<Entry<V>>, key: Name): V
    requires Has(m, key)
  {
    m[LowerBound(m, key)].value
  }

  /** Sets the value of a key, inserting it at its place if it is new. */
  function Put<V>(m: seq<Entry<V>>, key: Name, value: V): seq<Entry<V>> {
    var i := LowerBound(m, key);
    if Has(m, key) then m[i := Entry(key, value)] else m[..i] + [Entry(key, value)] + m[i..]
  }

  /** Looking a key up finds its entry, and only keys with an entry are found. */
  lemma {:induction false} HasExactly<V>(m: seq<Entry<V>>, key: Name)
    requires Sorted(m)
    ensures Has(m, key) <==> exists i :: 0 <= i < |m| && m[i].key == key
    ensures forall i | 0 <= i < |m| && m[i].key == key :: Has(m, key) && Get(m, key) == m[i].value
  {
    LessTotal(key, key);
    forall i | 0 <= i < |m| && m[i].key == key ensures i == LowerBound(m, key) {
      LessTotal(key, m[LowerBound(m, key)].key);
    }
  }

  lemma {:induction false} PutSorted<V>(m: seq<Entry<V>>, key: Name, value: V)
    requires Sorted(m)
    ensures Sorted(Put(m, key, value))
    ensures |Put(m, key, value)| == |m| + (if Has(m, key) then 0 else 1)
  {
    var i := LowerBound(m, key);
    if !Has(m, key) {
      forall j | i <= j < |m| ensures Less(key, m[j].key) {
        LessTotal(key, m[i].key);
        if i < j {
          LessTransitive(key, m[i].key, m[j].key);
        }
      }
    }
  }

  /** A put changes what is found for its key and for no other. */
  lemma {:induction false} PutGet<V>(m: seq<Entry<V>>, key: Name, value: V, k: Name)
    requires Sorted(m)
    ensures Has(Put(m, key, value), k) <==> k == key || Has(m, k)
    ensures Has(Put(m, key, value), k) ==>
      Get(Put(m, key, value), k) == if k == key then value else if Has(m, k) then Get(m, k) else value
  {
    var p, i := Put(m, key, value), LowerBound(m, key);
    PutSorted(m, key, value);
    HasExactly(m, k);
    HasExactly(p, k);
    assert p[i] == Entry(key, value);
    if Has(m, k) && k != key {
      var j := LowerBound(m, k);
      if Has(m, key) || j < i {
        assert p[j] == m[j];
      } else {
        assert p[j + 1] == m[j];
      }
    }
    if Has(p, k) && k != key {
      var j := LowerBound(p, k);
      if Has(m, key) || j < i {
        assert m[j] == p[j];
      } else {
        assert m[j - 1] == p[j];
      }
    }
  }
}
