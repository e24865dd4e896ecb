/** Strings in dictionary order, as sorted lists and bisection use it. */
module Lexicographic {

  predicate Less(a: string, b: string) {
    b != "" && (a == "" || a[0] < b[0] || (a[0] == b[0] && Less(a[1..], b[1..])))
  }

  predicate StartsWith(s: string, prefix: string) {
    prefix <= s
  }

  ghost predicate Sorted(keys: seq<string>) {
    forall i, j {:trigger keys[i], keys[j]} :: 0 <= i < j < |keys| ==> Less(keys[i], keys[j])
  }

  lemma {:induction false} LessIsStrict(a: string)
    ensures !Less(a, a)
  {
    if a != "" {
      LessIsStrict(a[1..]);
    }
  }

  lemma {:induction false} LessIsTotal(a: string, b: string)
    ensures a == b || Less(a, b) || Less(b, a)
  {
    if a != "" && b != "" && a[0] == b[0] {
      LessIsTotal(a[1..], b[1..]);
      assert a == [a[0]] + a[1..] && b == [b[0]] + b[1..];
    }
  }

  lemma {:induction false} LessIsTransitive(a: string, b: string, c: string)
    requires Less(a, b) && Less(b, c)
    ensures Less(a, c)
  {
    if a != "" && a[0] == b[0] && b[0] == c[0] {
      LessIsTransitive(a[1..], b[1..], c[1..]);
    }
  }

  lemma LessIsAsymmetric(a: string, b: string)
    requires Less(a, b)
    ensures !Less(b, a)
  {
    if Less(b, a) {
      LessIsTransitive(a, b, a);
      LessIsStrict(a);
    }
  }

  /** a and b agree on their first n characters, and then a ends or has the smaller character. */
  ghost predicate ComesBeforeAt(a: string, b: string, n: nat) {
    && n <= |a| && n < |b| && a[..n] == b[..n]
    && (n < |a| ==> a[n] < b[n])
  }

  lemma {:induction false} LessComesBefore(a: string, b: string) returns (n: nat)
    requires Less(a, b)
    ensures ComesBeforeAt(a, b, n)
  {
    n := 0;
    if a != "" && a[0] == b[0] {
      n := LessComesBefore(a[1..], b[1..]);
      n := n + 1;
      assert a[..n] == [a[0]] + a[1..][..n - 1] && b[..n] == [b[0]] + b[1..][..n - 1];
    }
  }

  lemma {:induction false} ComingBeforeIsLess(a: string, b: string, n: nat)
    requires ComesBeforeAt(a, b, n)
    ensures Less(a, b)
  {
    if n > 0 {
      assert a[0] == a[..n][0] == b[..n][0] == b[0];
      assert a[1..][..n - 1] == a[..n][1..] && b[1..][..n - 1] == b[..n][1..];
      ComingBeforeIsLess(a[1..], b[1..], n - 1);
    }
  }

  /** Strings are ordered by the first character in which they differ, and an end comes before any character. */
  lemma LessIsAlphabetical(a: string, b: string)
    ensures Less(a, b) <==> exists n :: ComesBeforeAt(a, b, n)
  {
    if Less(a, b) {
      var n := LessComesBefore(a, b);
    } else if n: nat :| ComesBeforeAt(a, b, n) {
      ComingBeforeIsLess(a, b, n);
    }
  }

  /** A string is not less than its prefixes. */
  lemma {:induction false} PrefixesComeFirst(s: string, prefix: string)
    requires StartsWith(s, prefix)
    ensures !Less(s, prefix)
  {
    if prefix != "" {
      assert s[0] == prefix[0];
      assert prefix[1..] <= s[1..];
      PrefixesComeFirst(s[1..], prefix[1..]);
    }
  }

  /** Between a prefix and a string that starts with it lie only strings that start with it. */
  lemma {:induction false} PrefixIsConvex(prefix: string, a: string, b: string)
    requires !Less(a, prefix) && Less(a, b) && StartsWith(b, prefix)
    ensures StartsWith(a, prefix)
  {
    if prefix != "" {
      assert b[0] == prefix[0] && a != "";
      assert a[0] == prefix[0];
      assert prefix[1..] <= b[1..];
      PrefixIsConvex(prefix[1..], a[1..], b[1..]);
      assert a == [a[0]] + a[1..] && prefix == [prefix[0]] + prefix[1..];
    }
  }

  /** Below the insertion point, exactly the keys that are less. */
  ghost predicate InsertionPoint(keys: seq<string>, x: string, n: nat) {
    && n <= |keys|
    && (forall i :: 0 <= i < n ==> Less(keys[i], x))
    && (forall i :: n <= i < |keys| ==> !Less(keys[i], x))
  }

  /** Everything on one side of the middle is on the same side of x as the middle is. */
  lemma SidesOf(keys: seq<string>, x: string, mid: nat)
    requires Sorted(keys) && mid < |keys|
    ensures Less(keys[mid], x) ==> forall i :: 0 <= i <= mid ==> Less(keys[i], x)
    ensures !Less(keys[mid], x) ==> forall i :: mid <= i < |keys| ==> !Less(keys[i], x)
  {
    forall i | 0 <= i < mid && Less(keys[mid], x) ensures Less(keys[i], x) {
      LessIsTransitive(keys[i], keys[mid], x);
    }
    forall i | mid < i < |keys| && Less(keys[i], x) ensures Less(keys[mid], x) {
      LessIsTransitive(keys[mid], keys[i], x);
    }
  }

  method BisectLeft(keys: seq<string>, x: string) returns (lo: nat)
    requires Sorted(keys)
    ensures InsertionPoint(keys, x, lo)
  {
    var hi := |keys|;
    lo := 0;
    while lo < hi
      invariant 0 <= lo <= hi <= |keys|
      invariant forall i :: 0 <= i < lo ==> Less(keys[i], x)
      invariant forall i :: hi <= i < |keys| ==> !Less(keys[i], x)
    {
      var mid := (lo + hi) / 2;
      SidesOf(keys, x, mid);
      if Less(keys[mid], x) {
        lo := mid + 1;
      } else {
        hi := mid;
      }
    }
  }

  lemma SidesAbove(keys: seq<string>, x: string, mid: nat)
    requires Sorted(keys) && mid < |keys|
    ensures Less(x, keys[mid]) ==> forall i :: mid <= i < |keys| ==> Less(x, keys[i])
    ensures !Less(x, keys[mid]) ==> forall i :: 0 <= i <= mid ==> !Less(x, keys[i])
  {
    forall i | mid < i < |keys| && Less(x, keys[mid]) ensures Less(x, keys[i]) {
      LessIsTransitive(x, keys[mid], keys[i]);
    }
    forall i | 0 <= i < mid && Less(x, keys[i]) ensures Less(x, keys[mid]) {
      LessIsTransitive(x, keys[i], keys[mid]);
    }
  }

  /** Inserts to the right of any equal key; a key not there yet keeps the list strictly sorted. */
  method Insort(keys: seq<string>, x: string) returns (r: seq<string>)
    requires Sorted(keys) && x !in keys
    ensures Sorted(r) && Keys(r) == Keys(keys) + {x}
  {
    var lo, hi := 0, |keys|;
    while lo < hi
      invariant 0 <= lo <= hi <= |keys|
      invariant forall i :: 0 <= i < lo ==> !Less(x, keys[i])
      invariant forall i :: hi <= i < |keys| ==> Less(x, keys[i])
    {
      var mid := (lo + hi) / 2;
      SidesAbove(keys, x, mid);
      if Less(x, keys[mid]) {
        hi := mid;
      } else {
        lo := mid + 1;
      }
    }
    r := keys[..lo] + [x] + keys[lo..];
    InsertedIsSorted(keys, x, lo);
  }

  ghost function Keys(keys: seq<string>): set<string> {
    set k | k in keys
  }

  lemma InsertedIsSorted(keys: seq<string>, x: string, n: nat)
    requires Sorted(keys) && x !in keys && n <= |keys|
    requires forall i :: 0 <= i < n ==> !Less(x, keys[i])
    requires forall i :: n <= i < |keys| ==> Less(x, keys[i])
    ensures Sorted(keys[..n] + [x] + keys[n..]) && Keys(keys[..n] + [x] + keys[n..]) == Keys(keys) + {x}
  {
    var r := keys[..n] + [x] + keys[n..];
    forall i | 0 <= i < n ensures Less(keys[i], x) {
      assert keys[i] in keys;
      LessIsTotal(keys[i], x);
    }
    assert keys == keys[..n] + keys[n..];
    forall i, j | 0 <= i < j < |r| ensures Less(r[i], r[j]) {
      assert r[i] == if i < n then keys[i] else if i == n then x else keys[i - 1];
      assert r[j] == if j < n then keys[j] else if j == n then x else keys[j - 1];
    }
  }

  /** A strictly sorted list is determined by its elements. */
  lemma {:induction false} SortedIsUnique(a: seq<string>, b: seq<string>)
    requires Sorted(a) && Sorted(b) && Keys(a) == Keys(b)
    ensures a == b
  {
    NoKeys(a);
    NoKeys(b);
    if a != [] && b != [] {
      SameFirst(a, b);
      SameRest(a, b);
      SortedIsUnique(a[1..], b[1..]);
      assert a == [a[0]] + a[1..] && b == [b[0]] + b[1..];
    }
  }

  lemma NoKeys(a: seq<string>)
    ensures a == [] <==> Keys(a) == {}
  {
    if a != [] {
      assert a[0] in Keys(a);
    }
  }

  lemma SameFirst(a: seq<string>, b: seq<string>)
    requires Sorted(a) && Sorted(b) && Keys(a) == Keys(b) && a != [] && b != []
    ensures a[0] == b[0]
  {
    assert a[0] in Keys(b) && b[0] in Keys(a);
    var i :| 0 <= i < |b| && b[i] == a[0];
    var j :| 0 <= j < |a| && a[j] == b[0];
    if i > 0 && j > 0 {
      assert Less(b[0], b[i]) && Less(a[0], a[j]);
      LessIsTransitive(a[0], b[0], a[0]);
      LessIsStrict(a[0]);
    }
  }

  lemma SameRest(a: seq<string>, b: seq<string>)
    requires Sorted(a) && Sorted(b) && Keys(a) == Keys(b) && a != [] && b != [] && a[0] == b[0]
    ensures Sorted(a[1..]) && Sorted(b[1..]) && Keys(a[1..]) == Keys(b[1..])
  {
    RestKeys(a);
    RestKeys(b);
  }

  lemma RestKeys(a: seq<string>)
    requires Sorted(a) && a != []
    ensures Sorted(a[1..]) && Keys(a[1..]) == Keys(a) - {a[0]}
  {
    forall k | k in Keys(a) && k != a[0] ensures k in Keys(a[1..]) {
      var i :| 0 <= i < |a| && a[i] == k;
      assert a[1..][i - 1] == k;
    }
    forall i | 0 < i < |a| ensures a[i] != a[0] {
      assert Less(a[0], a[i]);
      LessIsStrict(a[0]);
    }
  }

  /** Dropping the first occurrence of a key. */
  function Dropped(keys: seq<string>, x: string): (r: seq<string>) {
    if keys == [] then [] else if keys[0] == x then keys[1..] else [keys[0]] + Dropped(keys[1..], x)
  }

  lemma {:induction false} DroppedIsSorted(keys: seq<string>, x: string)
    requires Sorted(keys)
    ensures Sorted(Dropped(keys, x)) && Keys(Dropped(keys, x)) == Keys(keys) - {x}
  {
    if keys != [] {
      RestKeys(keys);
      if keys[0] != x {
        var rest := Dropped(keys[1..], x);
        DroppedIsSorted(keys[1..], x);
        forall i | 0 <= i < |rest| ensures Less(keys[0], rest[i]) {
          assert rest[i] in Keys(rest);
          assert rest[i] in keys[1..];
          var j :| 0 <= j < |keys[1..]| && keys[1..][j] == rest[i];
          assert Less(keys[0], keys[j + 1]);
        }
        assert Keys([keys[0]] + rest) == {keys[0]} + Keys(rest);
      }
    }
  }

  /** The keys that start with a prefix are one run of a sorted list, beginning at the insertion point. */
  lemma PrefixRunIsContiguous(keys: seq<string>, prefix: string, n: nat)
    requires Sorted(keys) && InsertionPoint(keys, prefix, n)
    ensures forall i :: 0 <= i < n ==> !StartsWith(keys[i], prefix)
    ensures forall i, j :: n <= i <= j < |keys| && StartsWith(keys[j], prefix) ==> StartsWith(keys[i], prefix)
  {
    forall i | 0 <= i < n && StartsWith(keys[i], prefix) ensures false {
      PrefixesComeFirst(keys[i], prefix);
    }
    forall i, j | n <= i < j < |keys| && StartsWith(keys[j], prefix) ensures StartsWith(keys[i], prefix) {
      PrefixIsConvex(prefix, keys[i], keys[j]);
    }
  }
}
