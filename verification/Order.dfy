/** Go's byte-wise string order, the one every sorted traversal of the repository uses. */
module Order {

  predicate Less(a: string, b: string) {
    if b == [] then false
    else if a == [] then true
    else if a[0] != b[0] then a[0] < b[0]
    else Less(a[1..], b[1..])
  }

  /** At their first difference the smaller string ends or has the smaller character. */
  predicate DiffersAt(a: string, b: string, i: nat) {
    i <= |a| && i < |b| && a[..i] == b[..i] && (i < |a| ==> a[i] < b[i])
  }

  /** The order is lexicographic. */
  lemma {:induction false} LessIsLexicographic(a: string, b: string)
    ensures Less(a, b) <==> exists i: nat :: DiffersAt(a, b, i)
  {
    if a == [] || b == [] {
      assert b != [] ==> DiffersAt(a, b, 0);
    } else if a[0] == b[0] {
      LessIsLexicographic(a[1..], b[1..]);
      if i: nat :| DiffersAt(a[1..], b[1..], i) {
        DiffersLater(a, b, i);
      }
      if i: nat :| DiffersAt(a, b, i) {
        assert i > 0;
        DiffersLater(a, b, i - 1);
      }
    } else {
      assert a[0] < b[0] <==> DiffersAt(a, b, 0);
      forall i: nat | i > 0 ensures !DiffersAt(a, b, i) {
        if i <= |a| && i < |b| {
          assert a[..i][0] != b[..i][0];
        }
      }
    }
  }

  lemma DiffersLater(a: string, b: string, i: nat)
    requires a != [] && b != [] && a[0] == b[0]
    ensures DiffersAt(a, b, i + 1) <==> DiffersAt(a[1..], b[1..], i)
  {
    if i + 1 <= |a| && i + 1 < |b| {
      assert a[..i+1] == [a[0]] + a[1..][..i] && b[..i+1] == [b[0]] + b[1..][..i];
      assert a[1..][..i] == a[..i+1][1..] && b[1..][..i] == b[..i+1][1..];
    }
  }

  predicate Sorted(s: seq<string>) {
    forall i, j | 0 <= i < j < |s| :: Less(s[i], s[j])
  }

  lemma {:induction false} LessIsStrict(a: string, b: string)
    ensures !(Less(a, b) && Less(b, a))
    ensures a == b ==> !Less(a, b)
  {
    if a != [] && b != [] && a[0] == b[0] {
      LessIsStrict(a[1..], b[1..]);
    }
  }

  lemma {:induction false} LessIsTotal(a: string, b: string)
    ensures a == b || Less(a, b) || Less(b, a)
  {
    if a != [] && b != [] && a[0] == b[0] {
      LessIsTotal(a[1..], b[1..]);
      assert a == [a[0]] + a[1..] && b == [b[0]] + b[1..];
    }
  }

  lemma {:induction false} LessIsTransitive(a: string, b: string, c: string)
    requires Less(a, b) && Less(b, c)
    ensures Less(a, c)
  {
    if a != [] && a[0] == b[0] && b[0] == c[0] {
      LessIsTransitive(a[1..], b[1..], c[1..]);
    }
  }

  lemma HasMember(s: seq<string>)
    ensures s != [] <==> exists k :: k in s
  {
    if s != [] {
      assert s[0] in s;
    }
  }

  lemma InTail(s: seq<string>, k: string)
    requires Sorted(s) && s != []
    ensures k in s[1..] <==> k in s && k != s[0]
  {
    LessIsStrict(s[0], s[0]);
    assert s == [s[0]] + s[1..];
  }

  /** A sorted list is determined by its members. */
  lemma {:induction false} SortedIsUnique(a: seq<string>, b: seq<string>)
    requires Sorted(a) && Sorted(b) && forall k :: k in a <==> k in b
    ensures a == b
  {
    if a == [] || b == [] {
      HasMember(a);
      HasMember(b);
    } else {
      assert a[0] in b && b[0] in a;
      LessIsStrict(a[0], b[0]);
      forall k ensures k in a[1..] <==> k in b[1..] {
        InTail(a, k);
        InTail(b, k);
      }
      SortedIsUnique(a[1..], b[1..]);
    }
  }

  /** The keys of a Go map, put in increasing order. */
  method SortedKeys(keys: set<string>) returns (out: seq<string>)
    ensures Sorted(out)
    ensures forall k :: k in keys <==> k in out
  {
    out := [];
    var rest := keys;
    while rest != {}
      invariant Sorted(out)
      invariant rest <= keys
      invariant forall k :: k in keys <==> k in out || k in rest
    {
      var k :| k in rest;
      rest := rest - {k};
      if k !in out {
        out := Insert(out, k);
      }
    }
  }

  /** ORDER BY id LIMIT 1. */
  method Least(keys: set<string>) returns (least: string)
    requires keys != {}
    ensures least in keys && forall k | k in keys :: k == least || Less(least, k)
  {
    var sorted := SortedKeys(keys);
    var k :| k in keys;
    assert k in sorted;
    least := sorted[0];
  }

  method Insert(s: seq<string>, k: string) returns (r: seq<string>)
    requires Sorted(s) && k !in s
    ensures Sorted(r)
    ensures forall x :: x in r <==> x == k || x in s
  {
    var i := 0;
    while i < |s| && Less(s[i], k)
      invariant 0 <= i <= |s|
      invariant forall j | 0 <= j < i :: Less(s[j], k)
    {
      i := i + 1;
    }
    r := s[..i] + [k] + s[i..];
    AllAbove(s, i, k);
    Inserted(s, i, k);
  }

  lemma AllAbove(s: seq<string>, i: nat, k: string)
    requires Sorted(s) && k !in s && i <= |s| && (i < |s| ==> !Less(s[i], k))
    ensures forall j | i <= j < |s| :: Less(k, s[j])
  {
    forall j | i <= j < |s| ensures Less(k, s[j]) {
      LessIsTotal(s[i], k);
      if j > i {
        LessIsTransitive(k, s[i], s[j]);
      }
    }
  }

  lemma Inserted(s: seq<string>, i: nat, k: string)
    requires Sorted(s) && i <= |s|
    requires (forall j | 0 <= j < i :: Less(s[j], k)) && forall j | i <= j < |s| :: Less(k, s[j])
    ensures var r := s[..i] + [k] + s[i..]; Sorted(r) && forall x :: x in r <==> x == k || x in s
  {
    hide Less;
    assert s == s[..i] + s[i..];
  }
}
