/** Facts about strings that several components share. */
module Strings {

  predicate IsDigit(c: char) {
    '0' <= c <= '9'
  }

  /** The class `/[A-Z]/i`: without the `u` flag it holds the ASCII letters only. */
  predicate IsAlpha(c: char) {
    'a' <= c <= 'z' || 'A' <= c <= 'Z'
  }

  /** `s` occurs somewhere in `t`. */
  ghost predicate Contains(t: string, s: string) {
    exists i :: 0 <= i <= |t| && s <= t[i..]
  }

  /** The order of ids: by first differing character, a prefix coming first. */
  predicate Less(a: string, b: string) {
    b != "" && (a == "" || a[0] < b[0] || (a[0] == b[0] && Less(a[1..], b[1..])))
  }

  lemma {:induction false} LessIsStrict(a: string)
    ensures !Less(a, a)
  {
    if a != "" { LessIsStrict(a[1..]); }
  }

  lemma {:induction false} LessIsTransitive(a: string, b: string, c: string)
    requires Less(a, b) && Less(b, c)
    ensures Less(a, c)
  {
    if a != "" && a[0] == b[0] && b[0] == c[0] { LessIsTransitive(a[1..], b[1..], c[1..]); }
  }

  lemma {:induction false} LessIsTotal(a: string, b: string)
    ensures Less(a, b) || Less(b, a) || a == b
  {
    if a != "" && b != "" && a[0] == b[0] {
      LessIsTotal(a[1..], b[1..]);
      assert a == [a[0]] + a[1..] && b == [b[0]] + b[1..];
    }
  }

  ghost predicate Ascending(ids: seq<string>) {
    forall i, j :: 0 <= i < j < |ids| ==> Less(ids[i], ids[j])
  }

  predicate IsLeast(m: string, ids: set<string>) {
    m in ids && forall x :: x in ids ==> x == m || Less(m, x)
  }

  lemma {:induction false} LeastExists(ids: set<string>) returns (m: string)
    requires ids != {}
    ensures IsLeast(m, ids)
  {
    var x :| x in ids;
    if ids == {x} {
      m := x;
    } else {
      m := LeastExists(ids - {x});
      LessIsTotal(x, m);
      if Less(x, m) {
        forall y | y in ids ensures y == x || Less(x, y) {
          if y != x && y != m { LessIsTransitive(x, m, y); }
        }
        m := x;
      }
    }
  }

  lemma LeastIsUnique(a: string, b: string, ids: set<string>)
    requires IsLeast(a, ids) && IsLeast(b, ids)
    ensures a == b
  {
    if a != b {
      LessIsTransitive(a, b, a);
      LessIsStrict(a);
    }
  }

  function Least(ids: set<string>): (m: string)
    requires ids != {}
    ensures IsLeast(m, ids)
  {
    assert exists m :: IsLeast(m, ids) by { var m := LeastExists(ids); }
    assert forall a, b :: IsLeast(a, ids) && IsLeast(b, ids) ==> a == b by {
      forall a, b | IsLeast(a, ids) && IsLeast(b, ids) ensures a == b { LeastIsUnique(a, b, ids); }
    }
    var m :| m in ids && IsLeast(m, ids);
    m
  }

  /** The ids in ascending order. */
  function Sorted(ids: set<string>): seq<string> {
    if ids == {} then [] else [Least(ids)] + Sorted(ids - {Least(ids)})
  }

  lemma {:induction false} SortedIsAscending(ids: set<string>)
    ensures Ascending(Sorted(ids))
    ensures forall x :: x in Sorted(ids) <==> x in ids
  {
    if ids != {} {
      var m := Least(ids);
      var rest := ids - {m};
      SortedIsAscending(rest);
      forall j | 0 <= j < |Sorted(rest)| ensures Less(m, Sorted(rest)[j]) {
        assert Sorted(rest)[j] in rest;
      }
    }
  }
}
