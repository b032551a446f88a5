/** Sorting the keys of a map, as the registries and the example backend do. */
module SortedKeys {

  /** The byte order of strings. */
  predicate Less(a: string, b: string) {
    b != "" && (a == "" || a[0] < b[0] || (a[0] == b[0] && Less(a[1..], b[1..])))
  }

  /** The two part at position `i`: `a` ends there, or has the smaller character. */
  predicate PartsAt(a: string, b: string, i: nat) {
    && i <= |a| && i < |b| && a[..i] == b[..i]
    && (i == |a| || a[i] < b[i])
  }

  /** One string comes before another exactly when they part that way after a common beginning. */
  lemma {:induction false} LessExactly(a: string, b: string)
    ensures Less(a, b) <==> exists i: nat :: PartsAt(a, b, i)
    decreases |a|
  {
    if a != "" && b != "" && a[0] == b[0] {
      LessExactly(a[1..], b[1..]);
      if i: nat :| PartsAt(a[1..], b[1..], i) {
        assert a[..i + 1] == [a[0]] + a[1..][..i] && b[..i + 1] == [b[0]] + b[1..][..i];
        assert PartsAt(a, b, i + 1);
      }
      if i: nat :| PartsAt(a, b, i) {
        assert i > 0 && a[1..][..i - 1] == a[..i][1..] && b[1..][..i - 1] == b[..i][1..];
        assert PartsAt(a[1..], b[1..], i - 1);
      }
    } else {
      if Less(a, b) { assert PartsAt(a, b, 0); }
      if i: nat :| PartsAt(a, b, i) { assert i > 0 ==> a[..i][0] == b[..i][0]; }
    }
  }

  lemma {:induction false} Trichotomy(a: string, b: string)
    ensures a == b || Less(a, b) || Less(b, a)
    decreases |a|
  {
    if a != "" && b != "" && a[0] == b[0] {
      Trichotomy(a[1..], b[1..]);
      assert a == [a[0]] + a[1..] && b == [b[0]] + b[1..];
    }
  }

  lemma {:induction false} Transitive(a: string, b: string, c: string)
    requires Less(a, b) && Less(b, c)
    ensures Less(a, c)
    decreases |a|
  {
    if a != "" && a[0] == b[0] == c[0] { Transitive(a[1..], b[1..], c[1..]); }
  }

  lemma {:induction false} Irreflexive(a: string)
    ensures !Less(a, a)
    decreases |a|
  {
    if a != "" { Irreflexive(a[1..]); }
  }

  ghost predicate IsLeast(m: string, keys: set<string>) {
    m in keys && forall k :: k in keys ==> k == m || Less(m, k)
  }

  /** The least key, found by scanning the keys in any order. */
  method Least(keys: set<string>) returns (m: string)
    requires keys != {}
    ensures IsLeast(m, keys)
  {
    m :| m in keys;
    var rest := keys - {m};
    while rest != {}
      invariant m in keys && rest <= keys
      invariant forall k :: k in keys - rest ==> k == m || Less(m, k)
      decreases rest
    {
      var k :| k in rest;
      Trichotomy(k, m);
      if Less(k, m) {
        forall x | x in keys - rest ensures Less(k, x) {
          if x != m { Transitive(k, m, x); }
        }
        m := k;
      }
      rest := rest - {k};
    }
  }

  lemma {:induction false} LeastExists(keys: set<string>)
    requires keys != {}
    ensures exists m :: IsLeast(m, keys)
    decreases |keys|
  {
    var k :| k in keys;
    var rest := keys - {k};
    if rest == {} {
      assert keys == {k};
      assert IsLeast(k, keys);
    } else {
      LeastExists(rest);
      var m :| IsLeast(m, rest);
      Trichotomy(k, m);
      if Less(k, m) {
        forall x | x in keys ensures x == k || Less(k, x) {
          if x != k && x != m { Transitive(k, m, x); }
        }
        assert IsLeast(k, keys);
      } else {
        assert IsLeast(m, keys);
      }
    }
  }

  lemma LeastUnique(a: string, b: string, keys: set<string>)
    requires IsLeast(a, keys) && IsLeast(b, keys)
    ensures a == b
  {
    if a != b {
      Transitive(a, b, a);
      Irreflexive(a);
    }
  }

  ghost function LeastOf(keys: set<string>): (m: string)
    requires keys != {}
    ensures IsLeast(m, keys)
  {
    LeastExists(keys);
    var m :| IsLeast(m, keys);
    m
  }

  /** The keys in ascending order. */
  ghost function Sorted(keys: set<string>): seq<string>
    decreases |keys|
  {
    if keys == {} then [] else [LeastOf(keys)] + Sorted(keys - {LeastOf(keys)})
  }

  ghost predicate Ascending(s: seq<string>) {
    forall i, j :: 0 <= i < j < |s| ==> Less(s[i], s[j])
  }

  /** They are all there, once each, in ascending order. */
  lemma {:induction false} SortedIsSorted(keys: set<string>)
    ensures Ascending(Sorted(keys)) && |Sorted(keys)| == |keys|
    ensures forall k :: k in Sorted(keys) <==> k in keys
    decreases |keys|
  {
    if keys != {} {
      var m := LeastOf(keys);
      SortedIsSorted(keys - {m});
      forall k | k in Sorted(keys - {m}) ensures Less(m, k) {
        assert k in keys - {m};
      }
    }
  }

  /** Ascending order leaves no choice: two listings of the same keys are the same. */
  lemma {:induction false} SortedUnique(s: seq<string>, keys: set<string>)
    requires Ascending(s) && forall k :: k in s <==> k in keys
    ensures s == Sorted(keys)
    decreases |keys|
  {
    if s == [] {
      assert forall k :: k in keys ==> k in s;
      assert keys == {};
    } else {
      assert s[0] in keys;
      forall k | k in keys ensures k == s[0] || Less(s[0], k) {
        var i :| 0 <= i < |s| && s[i] == k;
      }
      LeastUnique(s[0], LeastOf(keys), keys);
      forall k ensures k in s[1..] <==> k in keys - {s[0]} {
        if k in s[1..] {
          var i :| 1 <= i < |s| && s[i] == k;
          Irreflexive(s[0]);
        }
        if k in keys && k != s[0] {
          var i :| 0 <= i < |s| && s[i] == k;
          assert s[1..][i - 1] == k;
        }
      }
      SortedUnique(s[1..], keys - {s[0]});
      assert s == [s[0]] + s[1..];
    }
  }

  /** Collecting and sorting the keys of a map. */
  method SortKeys(keys: set<string>) returns (s: seq<string>)
    ensures s == Sorted(keys)
  {
    s := [];
    var rest := keys;
    while rest != {}
      invariant s + Sorted(rest) == Sorted(keys)
      decreases rest
    {
      var m := Least(rest);
      LeastUnique(m, LeastOf(rest), rest);
      assert s + ([m] + Sorted(rest - {m})) == s + [m] + Sorted(rest - {m});
      s := s + [m];
      rest := rest - {m};
    }
    assert s + [] == s;
  }
}
